/** gtest's simple regular expressions
    (third-party/googletest/googletest/src/gtest-port.cc:739-935): the validator accepts exactly
    the strings of a grammar, and the matcher decides the language of what was accepted. */
module SimpleRegex {
  import opened Wrappers

  const NUL: char := '\0'

  /** A C string, without its terminator. */
  type CString = s: string | NUL !in s

  /** Longer subjects are outside what the matcher is defined for. */
  const SIZE_MAX: nat := 0xFFFF_FFFF_FFFF_FFFF

  /** Reading at the end of a C string gives the terminator. */
  function At(s: string, i: nat): char {
    if i < |s| then s[i] else NUL
  }

  predicate IsInSet(ch: char, str: string) { ch != NUL && ch in str }

  predicate IsAsciiDigit(ch: char) { '0' <= ch <= '9' }
  predicate IsAsciiPunct(ch: char) { IsInSet(ch, "^-!\"#$%&'()*+,./:;<=>?@[\\]_`{|}~") }
  predicate IsRepeat(ch: char) { IsInSet(ch, "?*+") }
  predicate IsAsciiWhiteSpace(ch: char) { IsInSet(ch, " \U{000C}\n\r\t\U{000B}") }
  predicate IsAsciiWordChar(ch: char) {
    'a' <= ch <= 'z' || 'A' <= ch <= 'Z' || '0' <= ch <= '9' || ch == '_'
  }
  predicate IsValidEscape(c: char) { IsAsciiPunct(c) || IsInSet(c, "dDfnrsStvwW") }

  predicate AtomMatchesChar(escaped: bool, p: char, ch: char) {
    if escaped then
      match p
      case 'd' => IsAsciiDigit(ch)
      case 'D' => !IsAsciiDigit(ch)
      case 'f' => ch == '\U{000C}'
      case 'n' => ch == '\n'
      case 'r' => ch == '\r'
      case 's' => IsAsciiWhiteSpace(ch)
      case 'S' => !IsAsciiWhiteSpace(ch)
      case 't' => ch == '\t'
      case 'v' => ch == '\U{000B}'
      case 'w' => IsAsciiWordChar(ch)
      case 'W' => !IsAsciiWordChar(ch)
      case _ => IsAsciiPunct(p) && p == ch
    else (p == '.' && ch != '\n') || p == ch
  }

  /** The classes in other words: the listed members, and capitals for complements. */
  lemma AtomClasses(ch: char)
    ensures AtomMatchesChar(true, 'd', ch) <==> ch in "0123456789"
    ensures AtomMatchesChar(true, 's', ch) <==> ch in "\t\n\U{000B}\U{000C}\r "
    ensures AtomMatchesChar(true, 'D', ch) != AtomMatchesChar(true, 'd', ch)
    ensures AtomMatchesChar(true, 'S', ch) != AtomMatchesChar(true, 's', ch)
    ensures AtomMatchesChar(true, 'W', ch) != AtomMatchesChar(true, 'w', ch)
    ensures AtomMatchesChar(false, '.', ch) <==> ch != '\n'
  {
  }

  lemma WordClass(ch: char)
    ensures AtomMatchesChar(true, 'w', ch) <==>
      ch in "abcdefghijklmnopqrstuvwxyz" || ch in "ABCDEFGHIJKLMNOPQRSTUVWXYZ" || ch in "0123456789" || ch == '_'
  {
  }

  /** Each control escape is one character. */
  lemma ControlEscapes(ch: char)
    ensures AtomMatchesChar(true, 't', ch) <==> ch as int == 9
    ensures AtomMatchesChar(true, 'n', ch) <==> ch as int == 10
    ensures AtomMatchesChar(true, 'v', ch) <==> ch as int == 11
    ensures AtomMatchesChar(true, 'f', ch) <==> ch as int == 12
    ensures AtomMatchesChar(true, 'r', ch) <==> ch as int == 13
  {
  }

  /** Punctuation is what is printable and no word character, and the underscore. */
  lemma Punctuation(p: char)
    ensures IsAsciiPunct(p) <==> '!' <= p <= '~' && (p == '_' || !IsAsciiWordChar(p))
  {
  }

  /** Any other escape that is valid is punctuation and means itself, as any other plain
      character does. */
  lemma OtherAtoms(p: char, ch: char)
    requires p !in "dDfnrsStvwW"
    ensures IsValidEscape(p) <==> IsAsciiPunct(p)
    ensures AtomMatchesChar(true, p, ch) <==> IsValidEscape(p) && ch == p
    ensures p != '.' ==> (AtomMatchesChar(false, p, ch) <==> ch == p)
  {
  }

  // ---------- Syntax ----------

  datatype Rep = Once | Optional | Star | Plus

  datatype Item = Item(escaped: bool, c: char, rep: Rep)

  datatype Regex = Regex(start: bool, items: seq<Item>, end: bool)

  /** What may follow a backslash: the letters that name a class or a control character, and
      what is printable and neither a letter nor a digit. */
  ghost predicate Escapable(c: char) {
    || c in "dDfnrsStvwW"
    || ('!' <= c <= '~' && !('a' <= c <= 'z' || 'A' <= c <= 'Z' || '0' <= c <= '9'))
  }

  lemma ValidEscapes(c: char)
    ensures IsValidEscape(c) <==> Escapable(c)
  {
    Punctuation(c);
  }

  ghost predicate WellFormedItem(it: Item) {
    if it.escaped then Escapable(it.c) else it.c != NUL && it.c !in "^$\\()[]{}|?*+"
  }

  ghost predicate WellFormed(items: seq<Item>) {
    forall i :: 0 <= i < |items| ==> WellFormedItem(items[i])
  }

  ghost function ShowRep(rep: Rep): string {
    match rep case Once => "" case Optional => "?" case Star => "*" case Plus => "+"
  }

  ghost function ShowAtom(it: Item): string {
    if it.escaped then ['\\', it.c] else [it.c]
  }

  ghost function ShowTail(items: seq<Item>, end: bool): string {
    if items == [] then (if end then "$" else "")
    else ShowAtom(items[0]) + (ShowRep(items[0].rep) + ShowTail(items[1..], end))
  }

  ghost function Show(re: Regex): string {
    (if re.start then "^" else "") + ShowTail(re.items, re.end)
  }

  ghost predicate Shows(re: Regex, regex: string) {
    WellFormed(re.items) && Show(re) == regex
  }

  // ---------- Meaning ----------

  ghost predicate AllMatch(it: Item, s: string) {
    forall i :: 0 <= i < |s| ==> AtomMatchesChar(it.escaped, it.c, s[i])
  }

  ghost predicate CountFits(rep: Rep, n: nat) {
    match rep case Once => n == 1 case Optional => n <= 1 case Star => true case Plus => n >= 1
  }

  /** The language of a sequence of items: a concatenation of one stretch for each. */
  ghost predicate InLanguage(items: seq<Item>, s: string)
    decreases |items|
  {
    if items == [] then s == ""
    else exists k ::
      0 <= k <= |s| && CountFits(items[0].rep, k) && AllMatch(items[0], s[..k]) && InLanguage(items[1..], s[k..])
  }

  /** Some substring is in the language, at the ends that the anchors demand. */
  ghost predicate Finds(re: Regex, str: string) {
    exists i, j :: 0 <= i <= j <= |str| && (re.start ==> i == 0) && (re.end ==> j == |str|) &&
      InLanguage(re.items, str[i..j])
  }

  ghost predicate FindsAtHead(items: seq<Item>, end: bool, str: string) {
    exists j :: 0 <= j <= |str| && (end ==> j == |str|) && InLanguage(items, str[..j])
  }

  /** What is left after the first item takes `k` characters. */
  ghost predicate SplitsAt(it: Item, rest: seq<Item>, end: bool, str: string, k: int) {
    0 <= k <= |str| && CountFits(it.rep, k) && AllMatch(it, str[..k]) && FindsAtHead(rest, end, str[k..])
  }

  lemma HeadTaken(items: seq<Item>, end: bool, str: string) returns (k: int)
    requires items != [] && FindsAtHead(items, end, str)
    ensures SplitsAt(items[0], items[1..], end, str, k)
  {
    var j :| 0 <= j <= |str| && (end ==> j == |str|) && InLanguage(items, str[..j]);
    var s := str[..j];
    k :| 0 <= k <= |s| && CountFits(items[0].rep, k) && AllMatch(items[0], s[..k]) && InLanguage(items[1..], s[k..]);
    assert s[..k] == str[..k] && s[k..] == str[k..][..j - k];
  }

  lemma HeadJoined(items: seq<Item>, end: bool, str: string, k: int)
    requires items != [] && SplitsAt(items[0], items[1..], end, str, k)
    ensures FindsAtHead(items, end, str)
  {
    var t := str[k..];
    var j :| 0 <= j <= |t| && (end ==> j == |t|) && InLanguage(items[1..], t[..j]);
    var s := str[..k + j];
    assert s[..k] == str[..k] && s[k..] == t[..j];
    assert InLanguage(items, s);
  }

  lemma HeadSplit(items: seq<Item>, end: bool, str: string)
    requires items != []
    ensures FindsAtHead(items, end, str) <==> exists k :: SplitsAt(items[0], items[1..], end, str, k)
  {
    if FindsAtHead(items, end, str) { var k := HeadTaken(items, end, str); }
    if k :| SplitsAt(items[0], items[1..], end, str, k) { HeadJoined(items, end, str, k); }
  }

  lemma FindsIsHeadSomewhere(re: Regex, str: string)
    ensures Finds(re, str) <==>
      exists i :: 0 <= i <= |str| && (re.start ==> i == 0) && FindsAtHead(re.items, re.end, str[i..])
  {
    if Finds(re, str) {
      var i, j :| 0 <= i <= j <= |str| && (re.start ==> i == 0) && (re.end ==> j == |str|) &&
        InLanguage(re.items, str[i..j]);
      assert str[i..][..j - i] == str[i..j];
      assert FindsAtHead(re.items, re.end, str[i..]);
    }
    if i :| 0 <= i <= |str| && (re.start ==> i == 0) && FindsAtHead(re.items, re.end, str[i..]) {
      var t := str[i..];
      var j :| 0 <= j <= |t| && (re.end ==> j == |t|) && InLanguage(re.items, t[..j]);
      assert t[..j] == str[i..i + j];
    }
  }

  // ---------- The validator ----------

  /** What the validator accepts from some point on. `first`: nothing was read before it.
      `prev`: the token before it can be repeated. */
  ghost predicate Accepts(t: string, first: bool, prev: bool) {
    if t == "" then true
    else if t[0] == '\\' then |t| > 1 && IsValidEscape(t[1]) && Accepts(t[2..], false, true)
    else
      && (t[0] == '^' ==> first) && (t[0] == '$' ==> |t| == 1) && !IsInSet(t[0], "()[]{}|")
      && (IsRepeat(t[0]) ==> prev)
      && Accepts(t[1..], false, !IsInSet(t[0], "^$?*+"))
  }

  lemma RepStep(rep: Rep, tail: string)
    requires Accepts(tail, false, false) && Accepts(tail, false, true)
    ensures Accepts(ShowRep(rep) + tail, false, true)
  {
    if rep == Once { assert "" + tail == tail; } else { assert (ShowRep(rep) + tail)[1..] == tail; }
  }

  /** Every well-formed expression is accepted. */
  lemma {:induction false} AcceptsTail(items: seq<Item>, end: bool, first: bool, prev: bool)
    requires WellFormed(items)
    ensures Accepts(ShowTail(items, end), first, prev)
    decreases |items|
  {
    if items == [] {
      if end { assert "$"[1..] == ""; }
    } else {
      var it, t := items[0], ShowTail(items[1..], end);
      AcceptsTail(items[1..], end, false, false);
      AcceptsTail(items[1..], end, false, true);
      RepStep(it.rep, t);
      assert WellFormedItem(it);
      ValidEscapes(it.c);
      var s := ShowAtom(it) + (ShowRep(it.rep) + t);
      if it.escaped {
        assert s[2..] == ShowRep(it.rep) + t;
      } else {
        assert s[1..] == ShowRep(it.rep) + t;
      }
    }
  }

  /** Every accepted string is a well-formed expression, after one more repetition sign if the
      token before it can take one. */
  lemma {:induction false} Parse(t: CString, prev: bool) returns (rep: Rep, items: seq<Item>, end: bool)
    requires Accepts(t, false, prev)
    ensures WellFormed(items) && t == ShowRep(rep) + ShowTail(items, end) && (!prev ==> rep == Once)
    decreases |t|
  {
    rep, items, end := Once, [], false;
    if t == "" {
    } else if t[0] == '\\' {
      var r, rest;
      r, rest, end := Parse(t[2..], true);
      items := [Item(true, t[1], r)] + rest;
      assert items[1..] == rest;
      ValidEscapes(t[1]);
      assert t == ['\\', t[1]] + t[2..];
    } else if t[0] == '$' {
      end := true;
      assert t == "$";
    } else if IsRepeat(t[0]) {
      var r;
      r, items, end := Parse(t[1..], false);
      rep := if t[0] == '?' then Optional else if t[0] == '*' then Star else Plus;
      assert t == [t[0]] + t[1..];
    } else {
      var r, rest;
      r, rest, end := Parse(t[1..], true);
      items := [Item(false, t[0], r)] + rest;
      assert items[1..] == rest;
      assert t == [t[0]] + t[1..];
    }
  }

  lemma ShownIsAccepted(re: Regex)
    requires WellFormed(re.items)
    ensures Accepts(Show(re), true, false)
  {
    var tail := ShowTail(re.items, re.end);
    AcceptsTail(re.items, re.end, true, false);
    AcceptsTail(re.items, re.end, false, false);
    if re.start { assert Show(re)[1..] == tail; } else { assert Show(re) == tail; }
  }

  /** A leading `^` opens the expression; without one, nothing depends on being first. */
  function Body(regex: CString): CString {
    if regex != "" && regex[0] == '^' then regex[1..] else regex
  }

  lemma AcceptsBody(regex: CString)
    requires Accepts(regex, true, false)
    ensures Accepts(Body(regex), false, false)
  {
  }

  lemma BodyShown(regex: CString, items: seq<Item>, end: bool)
    requires WellFormed(items) && Body(regex) == ShowTail(items, end)
    ensures Shows(Regex(Body(regex) != regex, items, end), regex)
  {
    if Body(regex) != regex { assert regex == "^" + Body(regex); } else { assert regex == "" + Body(regex); }
  }

  lemma ParseAll(regex: CString) returns (re: Regex)
    requires Accepts(regex, true, false)
    ensures Shows(re, regex)
  {
    AcceptsBody(regex);
    var rep, items, end := Parse(Body(regex), false);
    assert ShowRep(rep) + ShowTail(items, end) == ShowTail(items, end);
    BodyShown(regex, items, end);
    re := Regex(Body(regex) != regex, items, end);
  }

  lemma AcceptedIsShown(regex: CString)
    ensures Accepts(regex, true, false) <==> exists re :: Shows(re, regex)
  {
    if Accepts(regex, true, false) { var re := ParseAll(regex); }
    if re :| Shows(re, regex) { ShownIsAccepted(re); }
  }

  lemma EscapeStep(s: CString, i: nat, first: bool, prev: bool)
    requires i < |s| && s[i] == '\\'
    ensures Accepts(s[i..], first, prev) <==> i + 1 < |s| && IsValidEscape(s[i + 1]) && Accepts(s[i + 2..], false, true)
  {
    if i + 1 < |s| { assert s[i..][2..] == s[i + 2..]; }
  }

  lemma PlainStep(s: CString, i: nat, first: bool, prev: bool)
    requires i < |s| && s[i] != '\\'
    ensures Accepts(s[i..], first, prev) <==>
            && !(s[i] == '^' && !first) && !(s[i] == '$' && At(s, i + 1) != NUL) && !IsInSet(s[i], "()[]{}|")
            && !(IsRepeat(s[i]) && !prev)
            && Accepts(s[i + 1..], false, !IsInSet(s[i], "^$?*+"))
  {
    assert s[i..][1..] == s[i + 1..];
  }

  /** Accepts exactly the written forms of well-formed expressions. */
  method ValidateRegex(regex: Option<CString>) returns (valid: bool)
    ensures valid <==> regex.Some? && exists re :: Shows(re, regex.value)
  {
    if regex == None {
      return false;
    }
    AcceptedIsShown(regex.value);
    valid := ValidateString(regex.value);
  }

  /** The loop of the validator. */
  method ValidateString(s: CString) returns (valid: bool)
    ensures valid <==> Accepts(s, true, false)
  {
    assert s[0..] == s;
    valid := true;
    var prevRepeatable := false;
    var i := 0;
    while At(s, i) != NUL
      invariant i <= |s|
      invariant Accepts(s, true, false) <==> valid && Accepts(s[i..], i == 0, prevRepeatable)
      decreases |s| - i
    {
      if s[i] == '\\' {
        EscapeStep(s, i, i == 0, prevRepeatable);
        i := i + 1;
        if At(s, i) == NUL {
          return false;
        }
        if !IsValidEscape(s[i]) {
          valid := false;
        }
        prevRepeatable := true;
      } else {
        PlainStep(s, i, i == 0, prevRepeatable);
        var ch := s[i];
        if ch == '^' && i > 0 {
          valid := false;
        } else if ch == '$' && At(s, i + 1) != NUL {
          valid := false;
        } else if IsInSet(ch, "()[]{}|") {
          valid := false;
        } else if IsRepeat(ch) && !prevRepeatable {
          valid := false;
        }
        prevRepeatable := !IsInSet(ch, "^$?*+");
      }
      i := i + 1;
    }
    assert s[i..] == "";
  }

  // ---------- The matcher ----------

  /** The first character of what follows an item is never a repetition sign. */
  lemma TailHead(items: seq<Item>, end: bool)
    requires WellFormed(items)
    ensures !IsRepeat(At(ShowTail(items, end), 0))
    ensures ShowTail(items, end) == "" <==> items == [] && !end
    ensures At(ShowTail(items, end), 0) == '$' <==> items == [] && end
    ensures At(ShowTail(items, end), 0) == '\\' <==> items != [] && items[0].escaped
    ensures At(ShowTail(items, end), 0) != '^'
  {
    if items != [] { assert WellFormedItem(items[0]); }
  }

  /** Where the parts of a written item are: from its character on, and behind it. */
  lemma ItemParts(items: seq<Item>, end: bool, regex: string, re: string)
    requires WellFormed(items) && items != [] && regex == ShowTail(items, end)
    requires re == if items[0].escaped then regex[1..] else regex
    ensures re != "" && re[0] == items[0].c
    ensures IsRepeat(At(re, 1)) <==> items[0].rep != Once
    ensures items[0].rep == Once ==> re[1..] == ShowTail(items[1..], end)
    ensures items[0].rep != Once ==>
      |re| >= 2 && ShowRep(items[0].rep) == [re[1]] && re[2..] == ShowTail(items[1..], end)
  {
    TailHead(items[1..], end);
    AtomDropped(items[0], ShowRep(items[0].rep) + ShowTail(items[1..], end));
    PartsOf(items[0], ShowTail(items[1..], end), re);
  }

  lemma AtomDropped(it: Item, t: string)
    ensures (if it.escaped then (ShowAtom(it) + t)[1..] else ShowAtom(it) + t) == [it.c] + t
  {
  }

  lemma PartsOf(it: Item, tail: string, re: string)
    requires re == [it.c] + (ShowRep(it.rep) + tail) && !IsRepeat(At(tail, 0))
    ensures re[0] == it.c
    ensures IsRepeat(At(re, 1)) <==> it.rep != Once
    ensures it.rep == Once ==> re[1..] == tail
    ensures it.rep != Once ==> |re| >= 2 && ShowRep(it.rep) == [re[1]] && re[2..] == tail
  {
  }

  lemma OnceSplits(it: Item, rest: seq<Item>, end: bool, str: string)
    requires it.rep == Once
    ensures (exists k :: SplitsAt(it, rest, end, str, k)) <==>
            str != "" && AtomMatchesChar(it.escaped, it.c, str[0]) && FindsAtHead(rest, end, str[1..])
  {
    if k :| SplitsAt(it, rest, end, str, k) {
      assert str[..k][0] == str[0];
    }
    if str != "" && AtomMatchesChar(it.escaped, it.c, str[0]) && FindsAtHead(rest, end, str[1..]) {
      assert SplitsAt(it, rest, end, str, 1);
    }
  }

  lemma LongerSplits(it: Item, rest: seq<Item>, end: bool, str: string, i: nat)
    ensures forall k :: i < k && SplitsAt(it, rest, end, str, k) ==>
      i < |str| && AtomMatchesChar(it.escaped, it.c, str[i])
  {
    forall k | i < k && SplitsAt(it, rest, end, str, k) ensures i < |str| && AtomMatchesChar(it.escaped, it.c, str[i]) {
      assert str[..k][i] == str[i];
    }
  }

  lemma EmptyHead(end: bool, str: string)
    ensures FindsAtHead([], end, str) <==> end ==> str == ""
  {
    assert str[..0] == "";
  }

  /** `regex` is what follows the repetition sign. */
  method MatchRepetitionAndRegexAtHead(escaped: bool, c: char, repeat: char, regex: CString, str: CString,
                                       ghost it: Item, ghost rest: seq<Item>, ghost end: bool) returns (matched: bool)
    requires |str| < SIZE_MAX
    requires it == Item(escaped, c, it.rep) && it.rep != Once && ShowRep(it.rep) == [repeat]
    requires WellFormed(rest) && regex == ShowTail(rest, end)
    ensures matched <==> exists k :: SplitsAt(it, rest, end, str, k)
    decreases |regex|, 1
  {
    var minCount := if repeat == '+' then 1 else 0;
    var maxCount := if repeat == '?' then 1 else SIZE_MAX - 1;
    var i := 0;
    while i <= maxCount
      invariant i <= |str| && i <= maxCount + 1
      invariant AllMatch(it, str[..i])
      invariant forall k :: 0 <= k < i ==> !SplitsAt(it, rest, end, str, k)
    {
      if i >= minCount {
        var m := MatchRegexAtHead(regex, str[i..], rest, end);
        if m {
          assert SplitsAt(it, rest, end, str, i);
          return true;
        }
      }
      LongerSplits(it, rest, end, str, i);
      if At(str, i) == NUL || !AtomMatchesChar(escaped, c, str[i]) {
        return false;
      }
      assert str[..i + 1] == str[..i] + [str[i]];
      i := i + 1;
    }
    return false;
  }

  method MatchRegexAtHead(regex: CString, str: CString, ghost items: seq<Item>, ghost end: bool) returns (matched: bool)
    requires |str| < SIZE_MAX
    requires WellFormed(items) && regex == ShowTail(items, end)
    ensures matched <==> FindsAtHead(items, end, str)
    decreases |regex|, 0
  {
    TailHead(items, end);
    EmptyHead(end, str);
    if At(regex, 0) == NUL {
      return true;
    }
    if regex[0] == '$' {
      return At(str, 0) == NUL;
    }
    ghost var it, rest := items[0], items[1..];
    HeadSplit(items, end, str);
    var escaped := regex[0] == '\\';
    var re := if escaped then regex[1..] else regex;
    ItemParts(items, end, regex, re);
    if IsRepeat(At(re, 1)) {
      matched := MatchRepetitionAndRegexAtHead(escaped, re[0], re[1], re[2..], str, it, rest, end);
    } else {
      OnceSplits(it, rest, end, str);
      if At(str, 0) != NUL && AtomMatchesChar(escaped, re[0], str[0]) {
        matched := MatchRegexAtHead(re[1..], str[1..], rest, end);
      } else {
        matched := false;
      }
    }
  }

  /** For every expression the validator accepts: true exactly when some substring of `str`
      is in its language. `re` is that expression. */
  method MatchRegexAnywhere(regex: Option<CString>, str: Option<CString>, ghost re: Regex) returns (matched: bool)
    requires str.Some? ==> |str.value| < SIZE_MAX
    requires regex.Some? ==> Shows(re, regex.value)
    ensures matched <==> regex.Some? && str.Some? && Finds(re, str.value)
  {
    if regex == None || str == None {
      return false;
    }
    var r, s := regex.value, str.value;
    FindsIsHeadSomewhere(re, s);
    TailHead(re.items, re.end);
    assert s[0..] == s;
    if At(r, 0) == '^' {
      assert r[1..] == ShowTail(re.items, re.end);
      matched := MatchRegexAtHead(r[1..], s, re.items, re.end);
      return;
    }
    assert r == ShowTail(re.items, re.end);
    var i := 0;
    while true
      invariant i <= |s|
      invariant forall k :: 0 <= k < i ==> !FindsAtHead(re.items, re.end, s[k..])
      decreases |s| - i
    {
      matched := MatchRegexAtHead(r, s[i..], re.items, re.end);
      if matched {
        return true;
      }
      if At(s, i) == NUL {
        break;
      }
      i := i + 1;
    }
    return false;
  }
}
