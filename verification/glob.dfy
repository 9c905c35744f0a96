/** gtest's wildcard matcher (third-party/googletest/googletest/src/gtest.cc:698-749), which
    restarts only from the most recent star, against the meaning of a wildcard pattern. */
module Glob {

  /** `*` stands for any substring, `?` for any character, anything else for itself. */
  ghost predicate Matches(p: string, s: string)
    decreases |p|
  {
    if p == "" then s == ""
    else if p[0] == '*' then exists k :: 0 <= k <= |s| && Matches(p[1..], s[k..])
    else s != "" && (p[0] == '?' || p[0] == s[0]) && Matches(p[1..], s[1..])
  }

  ghost predicate StarFree(p: string) {
    forall i :: 0 <= i < |p| ==> p[i] != '*'
  }

  /** A star takes nothing, or one more character than before. */
  lemma StarStep(p: string, s: string)
    requires p != "" && p[0] == '*'
    ensures Matches(p, s) <==> Matches(p[1..], s) || (s != "" && Matches(p, s[1..]))
  {
    assert s[0..] == s;
    if s != "" {
      forall k | 0 <= k <= |s[1..]| ensures s[1..][k..] == s[k + 1..] {}
      if Matches(p, s[1..]) {
        var k :| 0 <= k <= |s[1..]| && Matches(p[1..], s[1..][k..]);
        assert Matches(p[1..], s[k + 1..]);
      }
      if Matches(p, s) {
        var k :| 0 <= k <= |s| && Matches(p[1..], s[k..]);
        if k > 0 { assert Matches(p[1..], s[1..][k - 1..]); }
      }
    }
  }

  /** What a star pattern matches further on, it also matches from here. */
  lemma StarReachesBack(p: string, s: string, j: nat)
    requires p != "" && p[0] == '*' && j <= |s| && Matches(p, s[j..])
    ensures Matches(p, s)
  {
    var k :| 0 <= k <= |s[j..]| && Matches(p[1..], s[j..][k..]);
    assert s[j..][k..] == s[j + k..];
  }

  /** A star-free stretch of pattern takes exactly as many characters. */
  lemma {:induction false} LiteralTakes(lit: string, q: string, s: string)
    requires StarFree(lit) && Matches(lit + q, s)
    ensures |lit| <= |s| && Matches(q, s[|lit|..])
    decreases |lit|
  {
    if lit == "" {
      assert lit + q == q && s[0..] == s;
    } else {
      assert (lit + q)[1..] == lit[1..] + q;
      LiteralTakes(lit[1..], q, s[1..]);
      assert s[1..][|lit| - 1..] == s[|lit|..];
    }
  }

  /** Why the earlier star can be given up when a new one is reached: had it taken more, the
      new star could have taken the difference. `n` is where the match attempt stands. */
  lemma NewStarSubsumes(pattern: string, name: string, star: nat, p: nat, next: nat, n: nat)
    requires star < p < |pattern| && pattern[star] == '*' && pattern[p] == '*' && StarFree(pattern[star + 1..p])
    requires 0 < next <= |name| && n <= |name| && p - star - 1 == n - (next - 1)
    requires Matches(pattern[star..], name[next..])
    ensures Matches(pattern[p..], name[n..])
  {
    var lit, s := pattern[star + 1..p], name[next..];
    var k :| 0 <= k <= |s| && Matches(pattern[star..][1..], s[k..]);
    assert pattern[star..][1..] == lit + pattern[p..];
    assert s[k..] == name[next + k..];
    LiteralTakes(lit, pattern[p..], name[next + k..]);
    var j := k + 1;
    assert name[next + k..][|lit|..] == name[n..][j..];
    StarReachesBack(pattern[p..], name[n..], j);
  }

  /** No star has been passed (`next == 0`), or the last one, at `star`, would next be tried
      from `next`; then `p == star` means that this retry is about to happen. */
  ghost predicate Attempt(pattern: string, name: string, p: nat, n: nat, star: nat, next: nat) {
    && p <= |pattern| && n <= |name|
    && (next > 0 ==>
          && star < |pattern| && pattern[star] == '*' && next <= |name| + 1
          && (if p == star then n == next
              else star < p && StarFree(pattern[star + 1..p]) && p - star - 1 == n - (next - 1)))
  }

  /** The current attempt succeeds, or a later retry of the last star does. */
  ghost predicate Hope(pattern: string, name: string, p: nat, n: nat, star: nat, next: nat)
    requires Attempt(pattern, name, p, n, star, next)
  {
    || Matches(pattern[p..], name[n..])
    || (next > 0 && p != star && next <= |name| && Matches(pattern[star..], name[next..]))
  }

  lemma CharacterStep(pattern: string, name: string, p: nat, n: nat, star: nat, next: nat)
    requires Attempt(pattern, name, p, n, star, next)
    requires p < |pattern| && n < |name| && pattern[p] != '*' && (pattern[p] == '?' || pattern[p] == name[n])
    ensures Attempt(pattern, name, p + 1, n + 1, star, next)
    ensures Hope(pattern, name, p, n, star, next) <==> Hope(pattern, name, p + 1, n + 1, star, next)
  {
    assert pattern[p..][1..] == pattern[p + 1..] && name[n..][1..] == name[n + 1..];
    if next > 0 { assert pattern[star + 1..p + 1] == pattern[star + 1..p] + [pattern[p]]; }
  }

  lemma NewStar(pattern: string, name: string, p: nat, n: nat, star: nat, next: nat)
    requires Attempt(pattern, name, p, n, star, next) && p < |pattern| && pattern[p] == '*'
    ensures Attempt(pattern, name, p + 1, n, p, n + 1)
    ensures Hope(pattern, name, p, n, star, next) <==> Hope(pattern, name, p + 1, n, p, n + 1)
  {
    StarStep(pattern[p..], name[n..]);
    assert pattern[p..][1..] == pattern[p + 1..];
    assert n < |name| ==> name[n..][1..] == name[n + 1..];
    if next > 0 && p != star && next <= |name| && Matches(pattern[star..], name[next..]) {
      NewStarSubsumes(pattern, name, star, p, next, n);
    }
  }

  /** Where the loop goes from a mismatch is smaller than where it was. */
  method PatternMatchesString(name: string, pattern: string) returns (matched: bool)
    ensures matched <==> Matches(pattern, name)
  {
    var p, n := 0, 0;
    var patternNext, nameNext := 0, 0;
    assert pattern[0..] == pattern && name[0..] == name;
    while p < |pattern| || n < |name|
      invariant Attempt(pattern, name, p, n, patternNext, nameNext)
      invariant Hope(pattern, name, p, n, patternNext, nameNext) <==> Matches(pattern, name)
      decreases if nameNext == 0 then |pattern| + 1 else |pattern| - patternNext,
                |name| + 1 - nameNext,
                if nameNext > 0 && p == patternNext then 0 else 1,
                |pattern| - p
    {
      if p < |pattern| {
        if pattern[p] == '*' {
          NewStar(pattern, name, p, n, patternNext, nameNext);
          patternNext := p;
          nameNext := n + 1;
          p := p + 1;
          continue;
        } else if pattern[p] == '?' {
          if n < |name| {
            CharacterStep(pattern, name, p, n, patternNext, nameNext);
            p, n := p + 1, n + 1;
            continue;
          }
        } else if n < |name| && name[n] == pattern[p] {
          CharacterStep(pattern, name, p, n, patternNext, nameNext);
          p, n := p + 1, n + 1;
          continue;
        }
      }
      assert !Matches(pattern[p..], name[n..]);
      if 0 < nameNext <= |name| {
        p := patternNext;
        n := nameNext;
        continue;
      }
      return false;
    }
    return true;
  }
}
