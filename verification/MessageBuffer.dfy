/** The log batcher: order, conservation and the size of the batches, over every run of `Add`. */
module MessageBuffers {
  import opened Bytes

  datatype Message = Message(content: Text, level: Text, timestamp: int, fields: map<Text, Text>, labels: map<Text, Text>)

  /** The limits, the length of the JSON encoding of a batch if there is one, and whether a text is valid UTF-8. */
  datatype Config = Config(maxBytes: int, maxLines: int, encode: seq<Message> -> Option<nat>, valid: Text -> bool)

  datatype State = State(lastBytes: int, numLines: int, message: seq<Message>, sent: seq<seq<Message>>)

  const INITIAL := State(0, 0, [], [])

  predicate Accepts(c: Config, m: Message) {
    c.valid(m.content) && m.content != []
  }

  function Flushed(s: State): State {
    if s.numLines == 0 then s else s.(numLines := 0, message := [], sent := s.sent + [s.message])
  }

  function Added(c: Config, s: State, m: Message): State {
    if !Accepts(c, m) then s
    else
      var s' := if s.numLines >= c.maxLines || s.lastBytes >= c.maxBytes then Flushed(s) else s;
      var message := s'.message + [m];
      var encoded := c.encode(message);
      State(if encoded.Some? then encoded.value else s'.lastBytes, s'.numLines + 1, message, s'.sent)
  }

  class MessageBuffer {
    const config: Config
    var lastBytes: int
    var numLines: int
    var message: seq<Message>
    var closed: bool
    /** What was sent on the channel. */
    ghost var sent: seq<seq<Message>>

    constructor (config: Config)
      ensures this.config == config && !closed && View() == INITIAL
    {
      this.config := config;
      lastBytes, numLines, message, closed, sent := 0, 0, [], false, [];
    }

    ghost function View(): State
      reads this
    {
      State(lastBytes, numLines, message, sent)
    }

    method Add(m: Message)
      modifies this`lastBytes, this`numLines, this`message, this`sent
      ensures View() == if closed then old(View()) else Added(config, old(View()), m)
    {
      if closed {
        return;
      }
      if !config.valid(m.content) {
        return;
      }
      if m.content == [] {
        return;
      }
      if numLines >= config.maxLines || lastBytes >= config.maxBytes {
        FlushMessage();
      }
      message := message + [m];
      var encoded := config.encode(message);
      if encoded.Some? {
        lastBytes := encoded.value;
      }
      numLines := numLines + 1;
    }

    method FlushMessage()
      modifies this`numLines, this`message, this`sent
      ensures View() == Flushed(old(View()))
    {
      if numLines == 0 {
        return;
      }
      sent := sent + [message];
      Reset();
    }

    /** The length of the last encoding stays. */
    method Reset()
      modifies this`numLines, this`message
      ensures numLines == 0 && message == []
    {
      numLines := 0;
      message := [];
    }
  }

  function Run(c: Config, ms: seq<Message>): State {
    if ms == [] then INITIAL else Added(c, Run(c, ms[..|ms| - 1]), ms[|ms| - 1])
  }

  /** The messages that are valid UTF-8 and not empty. */
  function Accepted(c: Config, ms: seq<Message>): seq<Message> {
    if ms == [] then []
    else
      var last := ms[|ms| - 1];
      Accepted(c, ms[..|ms| - 1]) + if c.valid(last.content) && |last.content| > 0 then [last] else []
  }

  function Flatten(batches: seq<seq<Message>>): seq<Message> {
    if batches == [] then [] else Flatten(batches[..|batches| - 1]) + batches[|batches| - 1]
  }

  /** The encoding of a batch reaches the limit. */
  predicate Large(c: Config, batch: seq<Message>) {
    c.encode(batch).Some? && c.encode(batch).value >= c.maxBytes
  }

  /** A batch holds between one and the most messages, and grew only while it was not large. */
  predicate Grown(c: Config, batch: seq<Message>) {
    1 <= |batch| <= Max(1, c.maxLines) && forall k :: 0 < k < |batch| ==> !Large(c, batch[..k])
  }

  /** A batch that encodes was sent because it had all its lines or was large. */
  predicate Due(c: Config, batch: seq<Message>) {
    c.encode(batch).Some? ==> |batch| >= c.maxLines || Large(c, batch)
  }

  ghost predicate Holds(c: Config, accepted: seq<Message>, s: State) {
    && Flatten(s.sent) + s.message == accepted
    && s.numLines == |s.message|
    && (s.message != [] ==> Grown(c, s.message))
    && (s.message != [] && c.encode(s.message).Some? ==> s.lastBytes == c.encode(s.message).value)
    && (forall i :: 0 <= i < |s.sent| ==> Grown(c, s.sent[i]) && Due(c, s.sent[i]))
  }

  lemma GrownOneMore(c: Config, batch: seq<Message>, m: Message)
    requires batch != [] ==> Grown(c, batch) && |batch| < c.maxLines && !Large(c, batch)
    ensures Grown(c, batch + [m])
  {
    forall k | 0 < k < |batch| + 1 ensures !Large(c, (batch + [m])[..k]) {
      assert (batch + [m])[..k] == if k == |batch| then batch else batch[..k];
    }
  }

  /** What a message does to a buffer that keeps it. */
  lemma AppendInv(c: Config, accepted: seq<Message>, s: State, s': State, m: Message)
    requires Holds(c, accepted, s) && (s.message != [] ==> |s.message| < c.maxLines && !Large(c, s.message))
    requires s'.message == s.message + [m] && s'.sent == s.sent && s'.numLines == s.numLines + 1
    requires var e := c.encode(s'.message); e.Some? ==> s'.lastBytes == e.value
    ensures Holds(c, accepted + [m], s')
  {
    GrownOneMore(c, s.message, m);
    assert Flatten(s.sent) + (s.message + [m]) == Flatten(s.sent) + s.message + [m];
  }

  lemma FlushInv(c: Config, accepted: seq<Message>, s: State)
    requires Holds(c, accepted, s) && (s.numLines >= c.maxLines || s.lastBytes >= c.maxBytes)
    ensures Holds(c, accepted, Flushed(s)) && Flushed(s).message == []
  {
    if s.numLines != 0 {
      var sent := s.sent + [s.message];
      assert sent[..|s.sent|] == s.sent;
      assert Flatten(sent) + [] == Flatten(sent);
    }
  }

  lemma AddedInv(c: Config, accepted: seq<Message>, s: State, m: Message)
    requires Holds(c, accepted, s)
    ensures Holds(c, accepted + if Accepts(c, m) then [m] else [], Added(c, s, m))
  {
    if Accepts(c, m) {
      if s.numLines >= c.maxLines || s.lastBytes >= c.maxBytes {
        FlushInv(c, accepted, s);
        AppendInv(c, accepted, Flushed(s), Added(c, s, m), m);
      } else {
        AppendInv(c, accepted, s, Added(c, s, m), m);
      }
    } else {
      assert accepted + [] == accepted;
    }
  }

  lemma {:induction false} RunInv(c: Config, ms: seq<Message>)
    ensures Holds(c, Accepted(c, ms), Run(c, ms))
  {
    if ms != [] {
      var front, last := ms[..|ms| - 1], ms[|ms| - 1];
      RunInv(c, front);
      AddedInv(c, Accepted(c, front), Run(c, front), last);
    }
  }

  /** Nothing is lost, repeated or reordered, and the count of lines is right. */
  lemma {:induction false} Conservation(c: Config, ms: seq<Message>)
    ensures var s := Run(c, ms); Flatten(s.sent) + s.message == Accepted(c, ms) && s.numLines == |s.message|
  {
    RunInv(c, ms);
  }

  /** Every batch sent has one to the most messages; no proper prefix of it encodes to the most bytes or beyond; and a batch
      that encodes has all its lines or at least the most bytes. */
  lemma BatchBounds(c: Config, ms: seq<Message>, i: nat)
    requires i < |Run(c, ms).sent|
    ensures
      var batch := Run(c, ms).sent[i];
      && 1 <= |batch| <= Max(1, c.maxLines)
      && (forall k :: 0 < k < |batch| && c.encode(batch[..k]).Some? ==> c.encode(batch[..k]).value < c.maxBytes)
      && (c.encode(batch).Some? ==> |batch| >= c.maxLines || c.encode(batch).value >= c.maxBytes)
  {
    RunInv(c, ms);
    var batch := Run(c, ms).sent[i];
    assert Grown(c, batch) && Due(c, batch);
    forall k | 0 < k < |batch| && c.encode(batch[..k]).Some? ensures c.encode(batch[..k]).value < c.maxBytes {
      assert !Large(c, batch[..k]);
    }
  }

  /** The reference: a batch is complete once it has all its lines or is large, and is sent when the next message comes. */
  function Greedy(c: Config, ms: seq<Message>): (seq<seq<Message>>, seq<Message>) {
    if ms == [] then ([], [])
    else
      var (sent, batch) := Greedy(c, ms[..|ms| - 1]);
      var last := ms[|ms| - 1];
      if batch != [] && (|batch| >= c.maxLines || Large(c, batch)) then (sent + [batch], [last]) else (sent, batch + [last])
  }

  lemma GreedyOneMore(c: Config, ms: seq<Message>, m: Message)
    ensures
      var (sent, batch) := Greedy(c, ms);
      Greedy(c, ms + [m])
        == if batch != [] && (|batch| >= c.maxLines || Large(c, batch)) then (sent + [batch], [m]) else (sent, batch + [m])
  {
    assert (ms + [m])[..|ms|] == ms;
  }

  /** The guard of a flush that only the length left by an earlier batch causes. */
  predicate StaleNow(c: Config, s: State, m: Message) {
    && Accepts(c, m) && s.message != []
    && |s.message| < c.maxLines && !Large(c, s.message) && s.lastBytes >= c.maxBytes
  }

  /** Some message of the run meets that guard. */
  predicate Stale(c: Config, ms: seq<Message>) {
    ms != [] && (Stale(c, ms[..|ms| - 1]) || StaleNow(c, Run(c, ms[..|ms| - 1]), ms[|ms| - 1]))
  }

  /** The batches of the reference, the last one still growing. */
  function Reference(c: Config, ms: seq<Message>): seq<seq<Message>> {
    Greedy(c, ms).0 + [Greedy(c, ms).1]
  }

  /** Some batch was sent before it was what the reference makes of it, while all batches before it agree. */
  ghost predicate Behind(sent: seq<seq<Message>>, reference: seq<seq<Message>>) {
    exists n :: 0 <= n < |sent| && n < |reference| && sent[..n] == reference[..n] && |sent[n]| < |reference[n]|
  }

  lemma BehindDiffers(s: State, sent: seq<seq<Message>>, batch: seq<Message>)
    requires Behind(s.sent, sent + [batch])
    ensures s.sent != sent
  {
    var n :| 0 <= n < |s.sent| && n < |sent + [batch]| && s.sent[..n] == (sent + [batch])[..n]
          && |s.sent[n]| < |(sent + [batch])[n]|;
    assert n < |sent| ==> (sent + [batch])[n] == sent[n];
  }

  /** Sending more does not catch up, as the reference only grows. */
  lemma BehindStays(c: Config, sent: seq<seq<Message>>, sent': seq<seq<Message>>, accepted: seq<Message>, m: Message)
    requires Behind(sent, Reference(c, accepted)) && sent <= sent'
    ensures Behind(sent', Reference(c, accepted + [m]))
  {
    GreedyOneMore(c, accepted, m);
    var before, after := Reference(c, accepted), Reference(c, accepted + [m]);
    var n :| 0 <= n < |sent| && n < |before| && sent[..n] == before[..n] && |sent[n]| < |before[n]|;
    assert |before| <= |after| && before[..|before| - 1] == after[..|before| - 1] && |before[n]| <= |after[n]|;
    assert sent'[..n] == sent[..n] == before[..n] == before[..|before| - 1][..n] == after[..n];
    assert sent'[n] == sent[n];
  }

  lemma BehindStarts(c: Config, s: State, accepted: seq<Message>, m: Message)
    requires (s.sent, s.message) == Greedy(c, accepted) && StaleNow(c, s, m)
    ensures Behind(s.sent + [s.message], Reference(c, accepted + [m]))
  {
    GreedyOneMore(c, accepted, m);
    var n, sent, after := |s.sent|, s.sent + [s.message], Reference(c, accepted + [m]);
    assert sent[..n] == s.sent == after[..n] && sent[n] == s.message && after[n] == s.message + [m];
  }

  lemma GreedyStays(c: Config, s: State, accepted: seq<Message>, m: Message)
    requires Holds(c, accepted, s) && (s.sent, s.message) == Greedy(c, accepted) && Accepts(c, m) && !StaleNow(c, s, m)
    ensures var s' := Added(c, s, m); (s'.sent, s'.message) == Greedy(c, accepted + [m])
  {
    GreedyOneMore(c, accepted, m);
    assert [] + [m] == [m];
  }

  /** What a message does to the comparison of a state with the reference. */
  lemma Compared(c: Config, s: State, accepted: seq<Message>, m: Message, behind: bool)
    requires Holds(c, accepted, s) && Accepts(c, m)
    requires if behind then Behind(s.sent, Reference(c, accepted)) else (s.sent, s.message) == Greedy(c, accepted)
    ensures
      var s' := Added(c, s, m);
      if behind || StaleNow(c, s, m) then Behind(s'.sent, Reference(c, accepted + [m]))
      else (s'.sent, s'.message) == Greedy(c, accepted + [m])
  {
    if behind {
      BehindStays(c, s.sent, Added(c, s, m).sent, accepted, m);
    } else if StaleNow(c, s, m) {
      BehindStarts(c, s, accepted, m);
    } else {
      GreedyStays(c, s, accepted, m);
    }
  }

  lemma {:induction false} GreedyOrBehind(c: Config, ms: seq<Message>, s: State, accepted: seq<Message>)
    requires s == Run(c, ms) && accepted == Accepted(c, ms)
    ensures if Stale(c, ms) then Behind(s.sent, Reference(c, accepted)) else (s.sent, s.message) == Greedy(c, accepted)
  {
    if ms == [] {
    } else {
      var front, m := ms[..|ms| - 1], ms[|ms| - 1];
      var before, earlier := Run(c, front), Accepted(c, front);
      GreedyOrBehind(c, front, before, earlier);
      RunInv(c, front);
      if Accepts(c, m) {
        Compared(c, before, earlier, m, Stale(c, front));
      } else {
        assert accepted == earlier + [] == earlier;
      }
    }
  }

  /** The batches are those of the reference exactly when no message meets the guard of the wrong flush; once one does, they
      never become so again. */
  lemma RefinesGreedyIff(c: Config, ms: seq<Message>)
    ensures var s := Run(c, ms); (s.sent, s.message) == Greedy(c, Accepted(c, ms)) <==> !Stale(c, ms)
  {
    GreedyOrBehind(c, ms, Run(c, ms), Accepted(c, ms));
    if Stale(c, ms) {
      var (sent, batch) := Greedy(c, Accepted(c, ms));
      BehindDiffers(Run(c, ms), sent, batch);
    }
  }

  /** Every buffer the run formed could be encoded. */
  predicate Encodes(c: Config, ms: seq<Message>) {
    ms == [] || (Encodes(c, ms[..|ms| - 1]) && (Run(c, ms).message != [] ==> c.encode(Run(c, ms).message).Some?))
  }

  /** In particular the length that a flush leaves behind does no harm while encoding succeeds. */
  lemma {:induction false} RefinesGreedy(c: Config, ms: seq<Message>)
    requires Encodes(c, ms)
    ensures !Stale(c, ms)
    ensures var s := Run(c, ms); (s.sent, s.message) == Greedy(c, Accepted(c, ms))
  {
    if ms != [] {
      var front := ms[..|ms| - 1];
      RefinesGreedy(c, front);
      RunInv(c, front);
    }
    RefinesGreedyIff(c, ms);
  }

  /** When encoding fails it does harm: a message that does not encode, because its timestamp has a year outside 0..9999,
      is sent alone after a large batch, where the reference would keep it. */
  lemma StaleLengthFlushes(c: Config, first: Message, second: Message, third: Message)
    requires Accepts(c, first) && Accepts(c, second) && Accepts(c, third) && c.maxLines > 1
    requires Large(c, [first]) && c.encode([second]).None?
    ensures Run(c, [first, second, third]).sent == [[first], [second]]
    ensures Greedy(c, [first, second, third]) == ([[first]], [second, third])
  {
    var one, two, three := [first], [first, second], [first, second, third];
    assert three[..2] == two && two[..1] == one && one[..0] == [];
    assert [] + [first] == [first] && [] + [second] == [second] && [second] + [third] == [second, third];
    var n := c.encode([first]).value;
    assert Run(c, one) == State(n, 1, [first], []);
    assert Run(c, two) == State(n, 1, [second], [[first]]);
    assert [[first]] + [[second]] == [[first], [second]];
    assert Greedy(c, one) == ([], [first]);
    assert Greedy(c, two) == ([[first]], [second]);
  }
}
