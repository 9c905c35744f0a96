/** Marshalling (src/include/rpc/marshall.h, src/rpc/marshall.cpp, src/include/rpc/rpc.h:121-144):
    values go under their position, written in decimal, and headers under "req" and "rep". A
    JSON document is a map; writing it as text and parsing it back is the identity here. */
module Marshalling {
  import opened Wrappers
  import opened Rpc
  import Decimal128

  datatype Json = Number(n: nat) | Text(s: string) | Object(fields: map<string, Json>)

  type Document = map<string, Json>

  datatype ReplyHeader = ReplyHeader(xid: nat, err: Err)
  datatype RequestHeader = RequestHeader(xid: nat, proc: nat, cltNonce: nat, srvNonce: nat, xidRep: nat)

  // ---------- Headers ----------

  function ErrCode(e: Err): nat {
    match e
    case RESERVED => 0 case OK => 1 case UNMARSHALL_REPLY_FAILURE => 2 case UNMARSHALL_ARGS_FAILURE => 3
    case BIND_FAILURE => 4 case ATMOST_ONCE_FAILURE => 5 case TIMEOUT_FAILURE => 6 case OLDSERVER_FAILURE => 7
    case SEND_FAILURE => 8 case RECEIVE_FAILURE => 9 case CONNECTION_CLOSED => 10 case ACCEPT_FAILURE => 11
    case CONNECT_FAILURE => 12 case CANCEL => 13 case TIMER_FAILURE => 14 case BROKEN_PIPE => 15
    case CONNECTION_RESET => 16 case CONNECTION_ABORTED => 17
  }

  const ERRORS: seq<Err> := [RESERVED, OK, UNMARSHALL_REPLY_FAILURE, UNMARSHALL_ARGS_FAILURE, BIND_FAILURE,
    ATMOST_ONCE_FAILURE, TIMEOUT_FAILURE, OLDSERVER_FAILURE, SEND_FAILURE, RECEIVE_FAILURE, CONNECTION_CLOSED,
    ACCEPT_FAILURE, CONNECT_FAILURE, CANCEL, TIMER_FAILURE, BROKEN_PIPE, CONNECTION_RESET, CONNECTION_ABORTED]

  function RequestToJson(h: RequestHeader): Json {
    Object(map["xid" := Number(h.xid), "proc" := Number(h.proc), "clt_nonce" := Number(h.cltNonce),
               "srv_nonce" := Number(h.srvNonce), "xid_rep" := Number(h.xidRep)])
  }

  /** `at(key).get_to(number)`: throws when the key is missing or holds no number. */
  function NumberAt(fields: map<string, Json>, key: string): Option<nat> {
    if key in fields && fields[key].Number? then Some(fields[key].n) else None
  }

  function RequestFromJson(j: Json): Option<RequestHeader> {
    if !j.Object? then None
    else
      var f := j.fields;
      match (NumberAt(f, "xid"), NumberAt(f, "proc"), NumberAt(f, "clt_nonce"), NumberAt(f, "srv_nonce"),
        NumberAt(f, "xid_rep"))
      case (Some(a), Some(b), Some(c), Some(d), Some(e)) => Some(RequestHeader(a, b, c, d, e))
      case _ => None
  }

  function ReplyToJson(h: ReplyHeader): Json {
    Object(map["xid" := Number(h.xid), "err" := Number(ErrCode(h.err))])
  }

  /** Numbers outside the enumeration have no name in the model. */
  function ReplyFromJson(j: Json): Option<ReplyHeader> {
    if !j.Object? then None
    else
      match (NumberAt(j.fields, "xid"), NumberAt(j.fields, "err"))
      case (Some(x), Some(e)) => if e < |ERRORS| then Some(ReplyHeader(x, ERRORS[e])) else None
      case _ => None
  }

  lemma HeadersRoundTrip(q: RequestHeader, p: ReplyHeader)
    ensures RequestFromJson(RequestToJson(q)) == Some(q)
    ensures ReplyFromJson(ReplyToJson(p)) == Some(p)
  {
    assert ERRORS[ErrCode(p.err)] == p.err;
  }

  /** The numbers on the wire: 0 to 17 in the order of the enumeration, one for each error. */
  lemma ErrorCodes(e: Err)
    ensures ErrCode(e) < |ERRORS| == 18 && ERRORS[ErrCode(e)] == e
    ensures forall i :: 0 <= i < |ERRORS| ==> ErrCode(ERRORS[i]) == i
    ensures [ErrCode(RESERVED), ErrCode(OK), ErrCode(UNMARSHALL_REPLY_FAILURE), ErrCode(UNMARSHALL_ARGS_FAILURE),
             ErrCode(BIND_FAILURE), ErrCode(ATMOST_ONCE_FAILURE), ErrCode(TIMEOUT_FAILURE),
             ErrCode(OLDSERVER_FAILURE), ErrCode(SEND_FAILURE)] == [0, 1, 2, 3, 4, 5, 6, 7, 8]
    ensures [ErrCode(RECEIVE_FAILURE), ErrCode(CONNECTION_CLOSED), ErrCode(ACCEPT_FAILURE),
             ErrCode(CONNECT_FAILURE), ErrCode(CANCEL), ErrCode(TIMER_FAILURE), ErrCode(BROKEN_PIPE),
             ErrCode(CONNECTION_RESET), ErrCode(CONNECTION_ABORTED)] == [9, 10, 11, 12, 13, 14, 15, 16, 17]
  {
  }

  // ---------- Documents ----------

  /** One `<<` or `>>`: a value at the next position, or a header. */
  datatype Part =
    | Plain(value: Json)
    | Req(req: RequestHeader)
    | Rep(rep: ReplyHeader)

  datatype Kind = PlainKind | ReqKind | RepKind

  function KindOf(p: Part): Kind {
    match p case Plain(_) => PlainKind case Req(_) => ReqKind case Rep(_) => RepKind
  }

  function Key(p: Kind, id: nat): string {
    match p case PlainKind => Decimal128.Decimal(id) case ReqKind => "req" case RepKind => "rep"
  }

  /** Position keys are injective and never a header's key. */
  lemma KeysDistinct(j: Kind, a: nat, k: Kind, b: nat)
    requires Key(j, a) == Key(k, b)
    ensures j == k && (j == PlainKind ==> a == b)
  {
    if j == PlainKind { Decimal128.DecimalMeans(a); }
    if k == PlainKind { Decimal128.DecimalMeans(b); }
    if j == PlainKind && k == PlainKind { Decimal128.DecimalInjective(a, b); }
    assert "req"[2] != "rep"[2];
    assert !('0' <= "req"[0] <= '9') && !('0' <= "rep"[0] <= '9');
  }

  ghost predicate HasNumbers(j: Json, keys: set<string>) {
    j.Object? && forall key :: key in keys ==> key in j.fields && j.fields[key].Number?
  }

  ghost predicate IsRequest(j: Json) {
    HasNumbers(j, {"xid", "proc", "clt_nonce", "srv_nonce", "xid_rep"})
  }

  ghost predicate IsReply(j: Json) {
    HasNumbers(j, {"xid", "err"}) && j.fields["err"].n < 18
  }

  ghost predicate Carries(fields: map<string, Json>, h: RequestHeader)
    requires IsRequest(Object(fields))
  {
    && fields["xid"].n == h.xid && fields["proc"].n == h.proc && fields["clt_nonce"].n == h.cltNonce
    && fields["srv_nonce"].n == h.srvNonce && fields["xid_rep"].n == h.xidRep
  }

  ghost predicate CarriesReply(fields: map<string, Json>, h: ReplyHeader)
    requires IsReply(Object(fields))
  {
    fields["xid"].n == h.xid && fields["err"].n == ErrCode(h.err)
  }

  lemma RequestParsed(j: Json)
    ensures match RequestFromJson(j)
            case Some(h) => IsRequest(j) && Carries(j.fields, h)
            case None => !IsRequest(j)
  {
  }

  lemma ReplyParsed(j: Json)
    ensures match ReplyFromJson(j)
            case Some(h) => IsReply(j) && CarriesReply(j.fields, h)
            case None => !IsReply(j)
  {
    ErrorCodes(OK);
  }

  class Marshall {
    var json: Document
    var id: nat

    constructor ()
      ensures json == map[] && id == 0
    {
      json := map[];
      id := 0;
    }

    method Put(p: Part)
      modifies this
      ensures (json, id) == Written(old(json), old(id), p)
      ensures p.Plain? ==> json == old(json)[Decimal128.Decimal(old(id)) := p.value] && id == old(id) + 1
      ensures p.Req? ==> id == old(id) && json == old(json)["req" := Object(map[
                "xid" := Number(p.req.xid), "proc" := Number(p.req.proc), "clt_nonce" := Number(p.req.cltNonce),
                "srv_nonce" := Number(p.req.srvNonce), "xid_rep" := Number(p.req.xidRep)])]
      ensures p.Rep? ==> id == old(id) && json == old(json)["rep" := Object(map[
                "xid" := Number(p.rep.xid), "err" := Number(ErrCode(p.rep.err))])]
    {
      match p {
        case Plain(v) =>
          json := json[Decimal128.Decimal(id) := v];
          id := id + 1;
        case Req(h) =>
          json := json["req" := RequestToJson(h)];
        case Rep(h) =>
          json := json["rep" := ReplyToJson(h)];
      }
    }
  }

  class Unmarshall {
    const json: Document
    var id: nat

    constructor (json: Document)
      ensures this.json == json && id == 0
    {
      this.json := json;
      id := 0;
    }

    /** `None` stands for the throw of `at` or of the conversion. */
    method Get(k: Kind) returns (p: Option<Part>)
      modifies this
      ensures (p, id) == Read(json, old(id), k)
      ensures id == old(id) + if k == PlainKind then 1 else 0
      ensures k == PlainKind ==>
                var key := Decimal128.Decimal(old(id)); p == if key in json then Some(Plain(json[key])) else None
      ensures k == ReqKind ==> if "req" in json && IsRequest(json["req"])
                               then p.Some? && p.value.Req? && Carries(json["req"].fields, p.value.req)
                               else p == None
      ensures k == RepKind ==> if "rep" in json && IsReply(json["rep"])
                               then p.Some? && p.value.Rep? && CarriesReply(json["rep"].fields, p.value.rep)
                               else p == None
    {
      var at := id;
      if k == PlainKind {
        id := id + 1;
      }
      var key := Key(k, at);
      if key !in json {
        return None;
      }
      match k {
        case PlainKind =>
          return Some(Plain(json[key]));
        case ReqKind =>
          RequestParsed(json[key]);
          var h := RequestFromJson(json[key]);
          return if h.Some? then Some(Req(h.value)) else None;
        case RepKind =>
          ReplyParsed(json[key]);
          var h := ReplyFromJson(json[key]);
          return if h.Some? then Some(Rep(h.value)) else None;
      }
    }
  }

  function Payload(p: Part): Json {
    match p case Plain(v) => v case Req(h) => RequestToJson(h) case Rep(h) => ReplyToJson(h)
  }

  function Written(json: Document, id: nat, p: Part): (Document, nat) {
    (json[Key(KindOf(p), id) := Payload(p)], if p.Plain? then id + 1 else id)
  }

  function Read(json: Document, id: nat, k: Kind): (Option<Part>, nat) {
    (if Key(k, id) in json then Parsed(k, json[Key(k, id)]) else None, if k == PlainKind then id + 1 else id)
  }

  function Parsed(k: Kind, j: Json): Option<Part> {
    match k
    case PlainKind => Some(Plain(j))
    case ReqKind => (match RequestFromJson(j) case Some(h) => Some(Req(h)) case None => None)
    case RepKind => (match ReplyFromJson(j) case Some(h) => Some(Rep(h)) case None => None)
  }

  lemma ParsedPayload(p: Part)
    ensures Parsed(KindOf(p), Payload(p)) == Some(p)
  {
    match p
    case Plain(_) =>
    case Req(h) => HeadersRoundTrip(h, ReplyHeader(0, OK));
    case Rep(h) => HeadersRoundTrip(RequestHeader(0, 0, 0, 0, 0), h);
  }

  // ---------- Round trip ----------

  function WriteAll(json: Document, id: nat, parts: seq<Part>): Document
    decreases |parts|
  {
    if parts == [] then json
    else
      var (j, n) := Written(json, id, parts[0]);
      WriteAll(j, n, parts[1..])
  }

  function ReadAll(json: Document, id: nat, kinds: seq<Kind>): seq<Option<Part>>
    decreases |kinds|
  {
    if kinds == [] then []
    else
      var (p, n) := Read(json, id, kinds[0]);
      [p] + ReadAll(json, n, kinds[1..])
  }

  function Kinds(parts: seq<Part>): seq<Kind> {
    if parts == [] then [] else [KindOf(parts[0])] + Kinds(parts[1..])
  }

  function AllRead(parts: seq<Part>): seq<Option<Part>> {
    if parts == [] then [] else [Some(parts[0])] + AllRead(parts[1..])
  }

  /** At most one header of each kind. */
  ghost predicate HeadersOnce(parts: seq<Part>) {
    forall i, j :: 0 <= i < j < |parts| && KindOf(parts[i]) == KindOf(parts[j]) ==> parts[i].Plain?
  }

  /** What was written under a key stays there while later parts use other keys. */
  lemma {:induction false} Untouched(json: Document, id: nat, parts: seq<Part>, k: Kind, at: nat)
    requires if k == PlainKind then at < id else forall i :: 0 <= i < |parts| ==> KindOf(parts[i]) != k
    requires Key(k, at) in json
    ensures var after := WriteAll(json, id, parts); Key(k, at) in after && after[Key(k, at)] == json[Key(k, at)]
    decreases |parts|
  {
    if parts != [] {
      var (j, n) := Written(json, id, parts[0]);
      if Key(KindOf(parts[0]), id) == Key(k, at) { KeysDistinct(KindOf(parts[0]), id, k, at); }
      Untouched(j, n, parts[1..], k, at);
    }
  }

  /** For every sequence of values with at most one header of each kind, in any order: reading
      the same kinds in the same order gives back exactly what was written. */
  lemma {:induction false} RoundTrip(json: Document, id: nat, parts: seq<Part>)
    requires HeadersOnce(parts)
    ensures ReadAll(WriteAll(json, id, parts), id, Kinds(parts)) == AllRead(parts)
    decreases |parts|
  {
    if parts != [] {
      var p := parts[0];
      var (j, n) := Written(json, id, p);
      var final := WriteAll(json, id, parts);
      assert HeadersOnce(parts[1..]);
      RoundTrip(j, n, parts[1..]);
      Untouched(j, n, parts[1..], KindOf(p), id);
      ParsedPayload(p);
      assert Kinds(parts)[1..] == Kinds(parts[1..]);
    }
  }
}
