/** `PostgresParser`: query texts, and the cache of statements prepared under a name. */
module Postgres {
  import opened Bytes
  import opened Classifiers
  import opened Statements

  const BIND: byte := 'B' as int

  /** `bytes.Cut` at the first NUL. */
  datatype Cut = Cut(before: Text, after: Text, found: bool)

  function CutNul(s: seq<byte>): (r: Cut)
    ensures 0 !in r.before
    ensures s == if r.found then r.before + [0] + r.after else r.before
    ensures !r.found ==> r.after == []
  {
    if s == [] then Cut([], [], false)
    else if s[0] == 0 then Cut([], s[1..], true)
    else
      var r := CutNul(s[1..]);
      Cut([s[0]] + r.before, r.after, r.found)
  }

  /** A text up to its NUL, or all that is there with a marker. */
  function Terminated(s: seq<byte>): Text {
    var q := CutNul(s);
    if q.found then q.before else q.before + MARKER
  }

  class PostgresParser {
    var preparedStatements: map<Text, Text>
    ghost var payloads: seq<seq<byte>>

    constructor ()
      ensures Valid() && payloads == []
    {
      preparedStatements := map[];
      payloads := [];
    }

    /** The map holds exactly the statements prepared so far and not closed since. */
    ghost predicate Valid()
      reads this
    {
      forall name :: Lookup(preparedStatements, name) == Prepared(payloads, name)
    }

    method Parse(payload: seq<byte>) returns (r: Text)
      requires Valid()
      modifies this
      ensures Valid() && payloads == old(payloads) + [payload]
      ensures r == Report(payload, old(payloads))
    {
      ghost var was := payloads;
      payloads := payloads + [payload];
      assert payloads[..|was|] == was;
      if |payload| < 5 {
        return [];
      }
      var command := payload[0];
      if command == POSTGRES_QUERY {
        var q := CutNul(payload[5..]);
        return if q.found then q.before else q.before + MARKER;
      }
      if command == BIND {
        var portal := CutNul(payload[5..]);
        if !portal.found {
          return [];
        }
        var name := CutNul(portal.after);
        if !name.found {
          return [];
        }
        assert Lookup(preparedStatements, name.before) == Prepared(was, name.before);
        if name.before in preparedStatements {
          return preparedStatements[name.before];
        }
        return UnknownStatement(name.before);
      }
      if command == POSTGRES_PARSE {
        var name := CutNul(payload[5..]);
        if !name.found {
          return [];
        }
        var q := CutNul(name.after);
        var query := if q.found then q.before else q.before + MARKER;
        ghost var before := preparedStatements;
        preparedStatements := preparedStatements[name.before := query];
        forall n ensures Lookup(preparedStatements, n) == Prepared(payloads, n) {
          assert Lookup(before, n) == Prepared(was, n);
        }
        return Ascii("PREPARE ") + name.before + Ascii(" AS ") + query;
      }
      if command == POSTGRES_CLOSE {
        if |payload| < 7 || payload[5] != 'S' as int {
          return [];
        }
        assert payload[5..][1..] == payload[6..];
        var name := CutNul(payload[6..]);
        if !name.found {
          return [];
        }
        ghost var before := preparedStatements;
        preparedStatements := preparedStatements - {name.before};
        forall n ensures Lookup(preparedStatements, n) == Prepared(payloads, n) {
          assert Lookup(before, n) == Prepared(was, n);
        }
      }
      return [];
    }
  }

  /** What a payload does to the statements. */
  datatype Effect = Nothing | Prepares(name: Text, query: Text) | Closes(name: Text)

  function EffectOf(payload: seq<byte>): Effect {
    if |payload| < 5 then Nothing else EffectOfBody(payload[0], payload[5..])
  }

  function EffectOfBody(tag: byte, body: seq<byte>): Effect {
    if tag == POSTGRES_PARSE && CutNul(body).found then Prepares(CutNul(body).before, Terminated(CutNul(body).after))
    else if tag == POSTGRES_CLOSE && |body| >= 2 && body[0] == 'S' as int && CutNul(body[1..]).found then
      Closes(CutNul(body[1..]).before)
    else Nothing
  }

  /** The query of the latest Parse with a name that was not closed since. */
  function Prepared(payloads: seq<seq<byte>>, name: Text): Option<Text> {
    if payloads == [] then None
    else
      match EffectOf(payloads[|payloads| - 1])
      case Prepares(n, query) => if n == name then Some(query) else Prepared(payloads[..|payloads| - 1], name)
      case Closes(n) => if n == name then None else Prepared(payloads[..|payloads| - 1], name)
      case Nothing => Prepared(payloads[..|payloads| - 1], name)
  }

  /** The text a payload is reported with after the payloads before it. */
  function Report(payload: seq<byte>, payloads: seq<seq<byte>>): Text {
    if |payload| < 5 then []
    else if payload[0] == POSTGRES_QUERY then Terminated(payload[5..])
    else if payload[0] == BIND then
      var portal := CutNul(payload[5..]);
      if !portal.found || !CutNul(portal.after).found then []
      else
        var name := CutNul(portal.after).before;
        if Prepared(payloads, name).Some? then Prepared(payloads, name).value else UnknownStatement(name)
    else
      match EffectOf(payload)
      case Prepares(name, query) => Ascii("PREPARE ") + name + Ascii(" AS ") + query
      case _ => []
  }

  lemma {:induction false} CutOfTerminated(x: Text, rest: seq<byte>, s: seq<byte>)
    requires 0 !in x && s == x + [0] + rest
    ensures CutNul(s) == Cut(x, rest, true)
    decreases |x|
  {
    if x == [] {
      assert s[0] == 0 && s[1..] == rest;
    } else {
      assert s[0] == x[0] && s[1..] == x[1..] + [0] + rest;
      CutOfTerminated(x[1..], rest, s[1..]);
      assert x == [x[0]] + x[1..];
    }
  }

  lemma {:induction false} CutOfUnterminated(x: Text)
    requires 0 !in x
    ensures CutNul(x) == Cut(x, [], false)
  {
    if x != [] {
      CutOfUnterminated(x[1..]);
    }
  }

  /** The messages of the protocol, as section 55.7 of the PostgreSQL 16 documentation lays them out: a tag, a length,
      NUL-terminated strings. What follows the strings, further messages included, is `rest`. */
  datatype Message =
    | Query(text: Text, rest: seq<byte>)
    | Parse(name: Text, query: Text, rest: seq<byte>)
    | Bind(portal: Text, name: Text, rest: seq<byte>)
    | CloseStatement(name: Text, rest: seq<byte>)
    | ClosePortal(name: Text, rest: seq<byte>)

  predicate NulFree(m: Message) {
    match m
    case Query(text, _) => 0 !in text
    case Parse(name, query, _) => 0 !in name && 0 !in query
    case Bind(portal, name, _) => 0 !in portal && 0 !in name
    case CloseStatement(name, _) => 0 !in name
    case ClosePortal(name, _) => 0 !in name
  }

  function Tag(m: Message): byte {
    match m
    case Query(_, _) => POSTGRES_QUERY
    case Parse(_, _, _) => POSTGRES_PARSE
    case Bind(_, _, _) => BIND
    case CloseStatement(_, _) => POSTGRES_CLOSE
    case ClosePortal(_, _) => POSTGRES_CLOSE
  }

  function Body(m: Message): seq<byte> {
    match m
    case Query(text, rest) => text + [0] + rest
    case Parse(name, query, rest) => name + [0] + (query + [0] + rest)
    case Bind(portal, name, rest) => portal + [0] + (name + [0] + rest)
    case CloseStatement(name, rest) => ['S' as int] + (name + [0] + rest)
    case ClosePortal(name, rest) => ['P' as int] + (name + [0] + rest)
  }

  function Encode(m: Message, length: seq<byte>): seq<byte>
    requires |length| == 4
  {
    [Tag(m)] + length + Body(m)
  }

  /** A message as it was captured: its first `k` bytes. */
  datatype Captured = Captured(m: Message, length: seq<byte>, k: nat)

  predicate WellFormed(c: Captured) {
    |c.length| == 4 && NulFree(c.m) && 5 <= c.k <= 5 + |Body(c.m)|
  }

  function Payload(c: Captured): seq<byte>
    requires WellFormed(c)
  {
    Encode(c.m, c.length)[..c.k]
  }

  function Payloads(cs: seq<Captured>): seq<seq<byte>>
    requires forall i :: 0 <= i < |cs| ==> WellFormed(cs[i])
  {
    seq(|cs|, i requires 0 <= i < |cs| => Payload(cs[i]))
  }

  /** What a captured message does, told from the message: a name counts when its NUL was captured,
      a query that was cut keeps its prefix and a marker. */
  function Meaning(c: Captured): Effect {
    match c.m
    case Parse(name, query, _) =>
      if c.k <= 5 + |name| then Nothing
      else if c.k <= 6 + |name| + |query| then Prepares(name, query[..c.k - 6 - |name|] + MARKER)
      else Prepares(name, query)
    case CloseStatement(name, _) => if c.k <= 6 + |name| then Nothing else Closes(name)
    case _ => Nothing
  }

  lemma PayloadTail(c: Captured)
    requires WellFormed(c)
    ensures |Payload(c)| == c.k && Payload(c)[0] == Tag(c.m) && Payload(c)[5..] == Body(c.m)[..c.k - 5]
  {
  }

  /** A string and its NUL at the start of a cut buffer. */
  lemma CutOfPrefix(x: Text, rest: seq<byte>, k: nat)
    requires 0 !in x && k <= |x| + 1 + |rest|
    ensures CutNul((x + [0] + rest)[..k])
         == if k <= |x| then Cut(x[..k], [], false) else Cut(x, rest[..k - |x| - 1], true)
  {
    if k <= |x| {
      assert (x + [0] + rest)[..k] == x[..k];
      CutOfUnterminated(x[..k]);
    } else {
      assert (x + [0] + rest)[..k] == x + [0] + rest[..k - |x| - 1];
      CutOfTerminated(x, rest[..k - |x| - 1], (x + [0] + rest)[..k]);
    }
  }

  lemma ParseMeaning(name: Text, query: Text, rest: seq<byte>, n: nat)
    requires 0 !in name && 0 !in query && n <= |name| + 1 + |query| + 1 + |rest|
    ensures EffectOfBody(POSTGRES_PARSE, (name + [0] + (query + [0] + rest))[..n])
         == if n <= |name| then Nothing
            else if n <= |name| + 1 + |query| then Prepares(name, query[..n - |name| - 1] + MARKER)
            else Prepares(name, query)
  {
    CutOfPrefix(name, query + [0] + rest, n);
    if n > |name| {
      CutOfPrefix(query, rest, n - |name| - 1);
    }
  }

  lemma CloseMeaning(kind: byte, name: Text, rest: seq<byte>, n: nat)
    requires 0 !in name && n <= 1 + |name| + 1 + |rest|
    ensures EffectOfBody(POSTGRES_CLOSE, ([kind] + (name + [0] + rest))[..n])
         == if kind != 'S' as int || n <= 1 + |name| then Nothing else Closes(name)
  {
    var body := ([kind] + (name + [0] + rest))[..n];
    if n >= 2 {
      assert body[0] == kind && body[1..] == (name + [0] + rest)[..n - 1];
      CutOfPrefix(name, rest, n - 1);
    }
  }

  /** The parser sees in the captured bytes what the message means. */
  lemma MeaningOfPayload(c: Captured)
    requires WellFormed(c)
    ensures EffectOf(Payload(c)) == Meaning(c)
  {
    PayloadTail(c);
    match c.m
    case Query(_, _) =>
    case Bind(_, _, _) =>
    case Parse(name, query, rest) => ParseMeaning(name, query, rest, c.k - 5);
    case CloseStatement(name, rest) => CloseMeaning('S' as int, name, rest, c.k - 5);
    case ClosePortal(name, rest) => CloseMeaning('P' as int, name, rest, c.k - 5);
  }

  /** The query of the latest captured Parse with a name, not closed since; the empty name is a name like any other. */
  function Latest(cs: seq<Captured>, name: Text): Option<Text> {
    if cs == [] then None
    else
      match Meaning(cs[|cs| - 1])
      case Prepares(n, query) => if n == name then Some(query) else Latest(cs[..|cs| - 1], name)
      case Closes(n) => if n == name then None else Latest(cs[..|cs| - 1], name)
      case Nothing => Latest(cs[..|cs| - 1], name)
  }

  lemma {:induction false} PreparedIsLatest(cs: seq<Captured>, name: Text)
    requires forall i :: 0 <= i < |cs| ==> WellFormed(cs[i])
    ensures Prepared(Payloads(cs), name) == Latest(cs, name)
  {
    if cs != [] {
      var prev := cs[..|cs| - 1];
      assert Payloads(cs)[..|cs| - 1] == Payloads(prev);
      MeaningOfPayload(cs[|cs| - 1]);
      PreparedIsLatest(prev, name);
    }
  }

  /** Two strings with their NULs at the start of a buffer cut behind them. */
  lemma TwoStrings(x: Text, y: Text, rest: seq<byte>, k: nat, s: seq<byte>, portal: Cut, statement: Cut)
    requires 0 !in x && 0 !in y && |x| + |y| + 2 <= k <= |x| + |y| + 2 + |rest|
    requires s == (x + [0] + (y + [0] + rest))[..k]
    requires portal == Cut(x, (y + [0] + rest)[..k - |x| - 1], true)
    requires statement == Cut(y, rest[..k - |x| - |y| - 2], true)
    ensures CutNul(s) == portal && CutNul(portal.after) == statement
  {
    CutOfPrefix(x, y + [0] + rest, k);
    CutOfPrefix(y, rest, k - |x| - 1);
  }

  lemma ReportOfBind(payload: seq<byte>, payloads: seq<seq<byte>>, portal: Cut, statement: Cut)
    requires |payload| >= 5 && payload[0] == BIND
    requires portal == CutNul(payload[5..]) && portal.found && statement == CutNul(portal.after) && statement.found
    ensures
      var name := statement.before;
      Report(payload, payloads) == match Prepared(payloads, name) case Some(query) => query case None => UnknownStatement(name)
  {
  }

  /** Over every run of captured messages, a Bind whose statement name arrived is reported with the latest query
      prepared under that name, or as unknown. */
  lemma {:induction false} BindReportsLatest(cs: seq<Captured>, bind: Captured)
    requires forall i :: 0 <= i < |cs| ==> WellFormed(cs[i])
    requires WellFormed(bind) && bind.m.Bind? && bind.k > 6 + |bind.m.portal| + |bind.m.name|
    ensures Report(Payload(bind), Payloads(cs))
         == match Latest(cs, bind.m.name) case Some(query) => query case None => UnknownStatement(bind.m.name)
  {
    var payload, tail := Payload(bind), Body(bind.m)[..bind.k - 5];
    PayloadTail(bind);
    var name, rest, n := bind.m.name, bind.m.rest, bind.k - 5 - |bind.m.portal| - 1;
    var portal, statement := Cut(bind.m.portal, (name + [0] + rest)[..n], true), Cut(name, rest[..n - |name| - 1], true);
    TwoStrings(bind.m.portal, name, rest, bind.k - 5, tail, portal, statement);
    ReportOfBind(payload, Payloads(cs), portal, statement);
    PreparedIsLatest(cs, bind.m.name);
  }

  /** A simple query is reported in full when its NUL was captured, and as its prefix with a marker otherwise. */
  lemma QueryReported(q: Captured, before: seq<seq<byte>>)
    requires WellFormed(q) && q.m.Query?
    ensures Report(Payload(q), before)
         == if q.k > 5 + |q.m.text| then q.m.text else q.m.text[..q.k - 5] + MARKER
  {
    PayloadTail(q);
    CutOfPrefix(q.m.text, q.m.rest, q.k - 5);
  }

  /** The text a captured message is reported with after those before it. */
  function Told(cs: seq<Captured>, c: Captured): Text
    requires WellFormed(c) && forall i :: 0 <= i < |cs| ==> WellFormed(cs[i])
  {
    match c.m
    case Query(text, _) => if c.k > 5 + |text| then text else text[..c.k - 5] + MARKER
    case Parse(name, query, _) =>
      if c.k <= 5 + |name| then []
      else
        Ascii("PREPARE ") + name + Ascii(" AS ")
        + if c.k <= 6 + |name| + |query| then query[..c.k - 6 - |name|] + MARKER else query
    case Bind(portal, name, _) =>
      if c.k <= 6 + |portal| + |name| then []
      else if Latest(cs, name).Some? then Latest(cs, name).value
      else Ascii("EXECUTE ") + name + Ascii(" /* unknown */")
    case CloseStatement(_, _) => []
    case ClosePortal(_, _) => []
  }

  lemma BindCut(x: Text, y: Text, rest: seq<byte>, k: nat, s: seq<byte>)
    requires 0 !in x && 0 !in y && k <= |x| + |y| + 1
    requires s == (x + [0] + (y + [0] + rest))[..k]
    ensures CutNul(s).found ==> !CutNul(CutNul(s).after).found
  {
    CutOfPrefix(x, y + [0] + rest, k);
    if k > |x| {
      CutOfPrefix(y, rest, k - |x| - 1);
    }
  }

  lemma ReportOfEffect(payload: seq<byte>, payloads: seq<seq<byte>>)
    requires |payload| >= 5 && payload[0] in {POSTGRES_PARSE, POSTGRES_CLOSE}
    ensures
      Report(payload, payloads)
        == match EffectOf(payload) case Prepares(name, query) => Ascii("PREPARE ") + name + Ascii(" AS ") + query case _ => []
  {
  }

  lemma ReportOfCutBind(payload: seq<byte>, payloads: seq<seq<byte>>, tail: seq<byte>)
    requires |payload| >= 5 && payload[0] == BIND && tail == payload[5..]
    requires CutNul(tail).found ==> !CutNul(CutNul(tail).after).found
    ensures Report(payload, payloads) == []
  {
  }

  /** Over every run of captured messages each is reported with its text. */
  lemma ReportIsTold(cs: seq<Captured>, c: Captured)
    requires WellFormed(c) && forall i :: 0 <= i < |cs| ==> WellFormed(cs[i])
    ensures Report(Payload(c), Payloads(cs)) == Told(cs, c)
  {
    PayloadTail(c);
    match c.m
    case Query(_, _) => QueryReported(c, Payloads(cs));
    case Bind(portal, name, rest) =>
      if c.k > 6 + |portal| + |name| {
        BindReportsLatest(cs, c);
      } else {
        BindCut(portal, name, rest, c.k - 5, Body(c.m)[..c.k - 5]);
        ReportOfCutBind(Payload(c), Payloads(cs), Body(c.m)[..c.k - 5]);
      }
    case _ =>
      MeaningOfPayload(c);
      ReportOfEffect(Payload(c), Payloads(cs));
  }
}
