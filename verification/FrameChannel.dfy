/** The frame channel's double-buffered seqlock (elements-ipc `channel.rs`,
    `client.py`'s reader): one writer and one reader taking turns word by word,
    at a fixed geometry. A copy may move its words in any order. */
module FrameChannels {

  type Word = bv32

  const ATTEMPTS: nat := 3

  datatype Outcome = Frame(sequence: nat, values: seq<Word>) | Torn

  datatype Writer =
    | Quiet
    | Filling(frame: seq<Word>, written: set<nat>)

  datatype Reader =
    | Away
    | Sampling(tries: nat)
    /** `late` are the words copied after the frame in flight had reached them. */
    | Copying(tries: nat, before: nat, got: map<nat, Word>, late: set<nat>)
    | Returned(outcome: Outcome)

  /** The mapped file's buffers and counter, where each side is, the frames
      published so far, the counter when the reader's call began, and the last
      sequence it was given. */
  datatype Channel = Channel(words: nat, buffers: (seq<Word>, seq<Word>), counter: nat, writer: Writer, reader: Reader,
                             published: seq<seq<Word>>, called: nat, last: nat)
  {
    function Buffer(i: nat): seq<Word> {
      if i % 2 == 0 then buffers.0 else buffers.1
    }

    function WithBuffer(i: nat, b: seq<Word>): Channel {
      this.(buffers := if i % 2 == 0 then (b, buffers.1) else (buffers.0, b))
    }
  }

  /** The buffer a reader that sampled `before` copies. */
  function ReadIndex(before: nat): nat {
    if before == 0 then 0 else (before - 1) % 2
  }

  datatype Action =
    | BeginPublish(frame: seq<Word>)
    | WriteWord(i: nat)
    | FinishPublish
    | CallRead
    | SampleBefore
    | CopyWord(i: nat)
    | CheckAfter

  predicate Enabled(c: Channel, a: Action) {
    match a
    case BeginPublish(frame) => c.writer.Quiet? && |frame| == c.words
    case WriteWord(i) => c.writer.Filling? && i < c.words && i !in c.writer.written && |c.writer.frame| == c.words
      && i < |c.Buffer(c.counter)|
    case FinishPublish => c.writer.Filling? && forall i :: 0 <= i < c.words ==> i in c.writer.written
    case CallRead => c.reader.Away? || c.reader.Returned?
    case SampleBefore => c.reader.Sampling?
    case CopyWord(i) => c.reader.Copying? && i < c.words && i !in c.reader.got
      && i < |c.Buffer(ReadIndex(c.reader.before))|
    case CheckAfter => c.reader.Copying? && forall i :: 0 <= i < c.words ==> i in c.reader.got
  }

  /** The frame in flight has reached word `i`. */
  predicate Reached(c: Channel, i: nat) {
    c.writer.Filling? && i in c.writer.written
  }

  /** One word-level step of one side. */
  function Next(c: Channel, a: Action): Channel
    requires Enabled(c, a)
  {
    match a
    case BeginPublish(frame) => c.(writer := Filling(frame, {}))
    case WriteWord(i) =>
      c.WithBuffer(c.counter, c.Buffer(c.counter)[i := c.writer.frame[i]])
       .(writer := c.writer.(written := c.writer.written + {i}))
    case FinishPublish => c.(counter := c.counter + 1, writer := Quiet, published := c.published + [c.writer.frame])
    case CallRead => c.(reader := Sampling(0), called := c.counter)
    case SampleBefore => c.(reader := Copying(c.reader.tries, c.counter, map[], {}))
    case CopyWord(i) =>
      c.(reader := c.reader.(got := c.reader.got[i := c.Buffer(ReadIndex(c.reader.before))[i]],
                             late := c.reader.late + if Reached(c, i) then {i} else {}))
    case CheckAfter =>
      if c.counter == c.reader.before then
        c.(reader := Returned(Frame(c.counter, seq(c.words, i requires 0 <= i < c.words => c.reader.got[i]))),
          last := c.counter)
      else if c.reader.tries + 1 < ATTEMPTS then c.(reader := Sampling(c.reader.tries + 1))
      else c.(reader := Returned(Torn))
  }

  /** A fresh channel: both buffers zero, nothing published. */
  function Created(words: nat): Channel {
    var zeros := seq(words, _ => 0 as Word);
    Channel(words, (zeros, zeros), 0, Quiet, Away, [], 0, 0)
  }

  /** Whether a sequence of steps can be taken, one after another. */
  predicate Possible(c: Channel, run: seq<Action>)
    decreases |run|
  {
    run == [] || (Enabled(c, run[0]) && Possible(Next(c, run[0]), run[1..]))
  }

  function After(c: Channel, run: seq<Action>): Channel
    requires Possible(c, run)
    decreases |run|
  {
    if run == [] then c else After(Next(c, run[0]), run[1..])
  }

  // ------------------------------------------------------------ what every interleaving keeps

  /** The latest frame is whole in the buffer the writer is not filling. */
  ghost predicate BuffersHold(c: Channel) {
    && |c.buffers.0| == c.words && |c.buffers.1| == c.words && |c.published| == c.counter
    && (forall k :: 0 <= k < |c.published| ==> |c.published[k]| == c.words)
    && (c.counter > 0 ==> c.Buffer(c.counter - 1) == c.published[c.counter - 1])
    && (c.writer.Filling? ==> |c.writer.frame| == c.words)
    && (c.writer.Filling? ==> forall i: nat ::
       i in c.writer.written ==> i < c.words && c.Buffer(c.counter)[i] == c.writer.frame[i])
  }

  /** Before anything is published, buffer 0 holds zeros and what the first
      frame has written over them. */
  ghost predicate ZerosAt(c: Channel)
    requires BuffersHold(c)
  {
    c.counter == 0 ==> forall i: nat ::
      i < c.words && (c.writer.Quiet? || i !in c.writer.written) ==> c.buffers.0[i] == 0
  }

  /** A word of buffer 0 copied before anything is published: the frame in
      flight's if that had reached it by then, and otherwise 0. */
  ghost predicate InFlight(c: Channel, i: nat, w: Word, late: bool)
    requires BuffersHold(c)
  {
    if late then Reached(c, i) && w == c.writer.frame[i] else w == 0
  }

  /** A reader nobody has lapped holds words of one frame. */
  ghost predicate ReaderHolds(c: Channel)
    requires BuffersHold(c)
  {
    match c.reader
    case Away => true
    case Sampling(tries) => tries < ATTEMPTS && c.counter >= c.called + tries
    case Copying(tries, before, got, late) =>
      && tries < ATTEMPTS && c.called + tries <= before <= c.counter && c.last <= before
      && (before == c.counter > 0 ==> forall i: nat :: i in got ==> i < c.words && got[i] == c.published[before - 1][i])
      && (before == c.counter == 0 ==> forall i: nat :: i in got ==> i < c.words && InFlight(c, i, got[i], i in late))
      && (before == c.counter == 0 ==> late <= got.Keys)
    case Returned(Frame(s, values)) =>
      && s == c.last <= c.counter && |values| == c.words
      && (s > 0 ==> values == c.published[s - 1])
    case Returned(Torn) => c.counter >= c.called + ATTEMPTS
  }

  ghost predicate Safe(c: Channel) {
    BuffersHold(c) && ZerosAt(c) && c.called <= c.counter && c.last <= c.counter
    && ReaderHolds(c)
  }

  lemma CreatedIsSafe(words: nat)
    ensures Safe(Created(words))
  {
  }

  lemma WriterStepsKeep(c: Channel, a: Action)
    requires Safe(c) && Enabled(c, a) && (a.BeginPublish? || a.WriteWord? || a.FinishPublish?)
    ensures Safe(Next(c, a))
  {
    match a {
      case WriteWord(i) => WriteKeeps(c, i);
      case FinishPublish => FinishKeeps(c);
      case _ =>
    }
  }

  lemma WriteKeeps(c: Channel, i: nat)
    requires Safe(c) && Enabled(c, WriteWord(i))
    ensures Safe(Next(c, WriteWord(i)))
  {
  }

  lemma FinishKeeps(c: Channel)
    requires Safe(c) && Enabled(c, FinishPublish)
    ensures Safe(Next(c, FinishPublish))
  {
  }

  lemma ReaderStepsKeep(c: Channel, a: Action)
    requires Safe(c) && Enabled(c, a) && (a.CallRead? || a.SampleBefore? || a.CopyWord? || a.CheckAfter?)
    ensures Safe(Next(c, a))
  {
    match a {
      case CopyWord(i) => CopyKeeps(c, i);
      case CheckAfter => CheckKeeps(c);
      case _ =>
    }
  }

  lemma CopyKeeps(c: Channel, i: nat)
    requires Safe(c) && Enabled(c, CopyWord(i))
    ensures Safe(Next(c, CopyWord(i)))
  {
  }

  lemma CheckKeeps(c: Channel)
    requires Safe(c) && Enabled(c, CheckAfter)
    ensures Safe(Next(c, CheckAfter))
  {
  }

  /** Every reachable state is safe, whatever the interleaving. */
  lemma {:induction false} EveryRunIsSafe(c: Channel, run: seq<Action>)
    requires Safe(c) && Possible(c, run)
    ensures Safe(After(c, run))
    decreases |run|
  {
    hide Safe; hide Next; hide Enabled;
    if run != [] {
      StepKeeps(c, run[0]);
      EveryRunIsSafe(Next(c, run[0]), run[1..]);
    }
  }

  /** Frames once published stay, and successive reads never go backwards. */
  lemma {:induction false} NothingGoesBack(c: Channel, run: seq<Action>)
    requires Safe(c) && Possible(c, run)
    ensures c.published <= After(c, run).published && c.last <= After(c, run).last && c.counter <= After(c, run).counter
    decreases |run|
  {
    hide Safe; hide Next; hide Enabled;
    if run != [] {
      StepGrows(c, run[0]);
      NothingGoesBack(Next(c, run[0]), run[1..]);
    }
  }

  lemma StepKeeps(c: Channel, a: Action)
    requires Safe(c) && Enabled(c, a)
    ensures Safe(Next(c, a))
  {
    hide Safe; hide Next; hide Enabled;
    if a.BeginPublish? || a.WriteWord? || a.FinishPublish? { WriterStepsKeep(c, a); } else { ReaderStepsKeep(c, a); }
  }

  lemma StepGrows(c: Channel, a: Action)
    requires Safe(c) && Enabled(c, a)
    ensures Safe(Next(c, a))
    ensures c.published <= Next(c, a).published && c.last <= Next(c, a).last && c.counter <= Next(c, a).counter
  {
    StepKeeps(c, a);
  }

  /** A read that returns sequence s >= 1 carries exactly the s-th frame
      published, in every interleaving with any publishes. */
  lemma ReadIsWhole(words: nat, run: seq<Action>)
    requires Possible(Created(words), run)
    ensures var c := After(Created(words), run);
      c.reader.Returned? && c.reader.outcome.Frame? && c.reader.outcome.sequence >= 1 ==>
        var s := c.reader.outcome.sequence; s <= |c.published| && c.reader.outcome.values == c.published[s - 1]
  {
    CreatedIsSafe(words);
    EveryRunIsSafe(Created(words), run);
  }

  /** A copy the writer has overtaken is tried again, twice; the third time the
      read gives up, and never otherwise. */
  lemma GivesUpAtThird(c: Channel)
    requires Enabled(c, CheckAfter) && c.reader.tries <= 2
    ensures Next(c, CheckAfter).reader == Returned(Torn) <==> c.counter != c.reader.before && c.reader.tries == 2
    ensures Next(c, CheckAfter).reader.Sampling? <==> c.counter != c.reader.before && c.reader.tries < 2
    ensures c.counter != c.reader.before && c.reader.tries < 2 ==>
      Next(c, CheckAfter).reader == Sampling(c.reader.tries + 1)
  {
  }

  /** A read gives up only after at least three publishes completed during it. */
  lemma TornMeansLapped(words: nat, run: seq<Action>)
    requires Possible(Created(words), run)
    ensures var c := After(Created(words), run);
      && (c.reader == Returned(Torn) ==> c.counter >= c.called + 3)
      && (c.reader.Sampling? || c.reader.Copying? ==> c.reader.tries <= 2)
  {
    CreatedIsSafe(words);
    EveryRunIsSafe(Created(words), run);
  }

  // ------------------------------------------------------------ sequence 0

  predicate AllZero(values: seq<Word>) {
    forall i :: 0 <= i < |values| ==> values[i] == 0
  }

  /** What a read that returns sequence 0 carries: at each word the frame in
      flight's, if it had got there before the reader, and 0 if not. So they are
      all zeros exactly when every word copied late is a 0 of that frame. */
  lemma ZeroRead(c: Channel)
    requires Safe(c) && Enabled(c, CheckAfter) && c.counter == c.reader.before == 0
    ensures var r := Next(c, CheckAfter).reader;
      && r.Returned? && r.outcome.Frame? && r.outcome.sequence == 0 && |r.outcome.values| == c.words
      && (forall i :: 0 <= i < c.words ==> InFlight(c, i, r.outcome.values[i], i in c.reader.late))
      && (c.writer.Quiet? ==> c.reader.late == {})
      && (AllZero(r.outcome.values) <==> forall i <- c.reader.late ::
         c.writer.Filling? && i < c.words && c.writer.frame[i] == 0)
  {
    var values := Next(c, CheckAfter).reader.outcome.values;
    forall i | 0 <= i < c.words ensures InFlight(c, i, values[i], i in c.reader.late) {
      assert i in c.reader.got;
    }
    forall i <- c.reader.late ensures i < c.words && Reached(c, i) && values[i] == c.writer.frame[i] {
      assert i in c.reader.got;
    }
  }

  /** The writer has put nothing but zeros in the first frame's buffer yet. */
  predicate OnlyZerosYet(c: Channel) {
    c.writer.Quiet? || forall i <- c.writer.written :: i < |c.writer.frame| && c.writer.frame[i] == 0
  }

  /** Before anything is published, that is exactly when the buffer is all zeros. */
  lemma ZerosExactly(c: Channel)
    requires Safe(c) && c.counter == 0
    ensures AllZero(c.buffers.0) <==> OnlyZerosYet(c)
  {
    if c.writer.Filling? {
      forall i <- c.writer.written ensures c.buffers.0[i] == c.writer.frame[i] { }
    }
  }

  /** So the promise of zeros before the first frame fails for a read that
      overlaps the first publish. */
  lemma ZeroReadFails()
    ensures var run := [CallRead, SampleBefore, BeginPublish([7]), WriteWord(0), CopyWord(0), CheckAfter];
      Possible(Created(1), run) && After(Created(1), run).reader == Returned(Frame(0, [7]))
  {
    var c0 := Created(1);
    var c1 := Next(c0, CallRead);
    var c2 := Next(c1, SampleBefore);
    var c3 := Next(c2, BeginPublish([7]));
    var c4 := Next(c3, WriteWord(0));
    var c5 := Next(c4, CopyWord(0));
    var c6 := Next(c5, CheckAfter);
    Then(c5, CheckAfter, []);
    Then(c4, CopyWord(0), [CheckAfter]);
    Then(c3, WriteWord(0), [CopyWord(0), CheckAfter]);
    Then(c2, BeginPublish([7]), [WriteWord(0), CopyWord(0), CheckAfter]);
    Then(c1, SampleBefore, [BeginPublish([7]), WriteWord(0), CopyWord(0), CheckAfter]);
    Then(c0, CallRead, [SampleBefore, BeginPublish([7]), WriteWord(0), CopyWord(0), CheckAfter]);
    assert c6.reader.outcome.values == [7];
  }

  /** One step, then the rest. */
  lemma Then(c: Channel, a: Action, rest: seq<Action>)
    requires Enabled(c, a) && Possible(Next(c, a), rest)
    ensures Possible(c, [a] + rest) && After(c, [a] + rest) == After(Next(c, a), rest)
  {
    assert ([a] + rest)[1..] == rest;
  }

  /** The copy of words `k` and up, and the check after it. */
  function Finishing(k: nat, words: nat): seq<Action>
    requires k <= words
    decreases words - k
  {
    if k == words then [CheckAfter] else [CopyWord(k)] + Finishing(k + 1, words)
  }

  lemma {:induction false} FinishingReads(c: Channel, k: nat)
    requires Safe(c) && c.reader.Copying? && c.reader.before == c.counter && k <= c.words
    requires forall i: nat :: i in c.reader.got <==> i < k
    requires forall i: nat :: i in c.reader.got ==> c.reader.got[i] == c.Buffer(ReadIndex(c.counter))[i]
    ensures Possible(c, Finishing(k, c.words))
    ensures After(c, Finishing(k, c.words)).reader == Returned(Frame(c.counter, c.Buffer(ReadIndex(c.counter))))
    decreases c.words - k
  {
    if k == c.words {
      Then(c, CheckAfter, []);
      assert Next(c, CheckAfter).reader.outcome.values == c.Buffer(ReadIndex(c.counter));
    } else {
      var c' := Next(c, CopyWord(k));
      ReaderStepsKeep(c, CopyWord(k));
      FinishingReads(c', k + 1);
      Then(c, CopyWord(k), Finishing(k + 1, c.words));
    }
  }

  /** A read no publish overlaps returns at its first attempt what is in the
      latest buffer: zeros at sequence 0 exactly when the writer has put nothing
      else there yet. */
  lemma UndisturbedRead(c: Channel)
    requires Safe(c) && (c.reader.Away? || c.reader.Returned?)
    ensures var run := [CallRead, SampleBefore] + Finishing(0, c.words);
      && Possible(c, run)
      && After(c, run).reader == Returned(Frame(c.counter, c.Buffer(ReadIndex(c.counter))))
    ensures c.counter > 0 ==> |c.published| == c.counter && c.Buffer(ReadIndex(c.counter)) == c.published[c.counter - 1]
    ensures c.counter == 0 ==> (AllZero(c.Buffer(ReadIndex(c.counter))) <==> OnlyZerosYet(c))
  {
    hide Safe; hide Next; hide Enabled; hide Finishing; hide BuffersHold;
    if c.counter == 0 { ZerosExactly(c); }
    var c1, c2 := ReadStarts(c);
    FinishingReads(c2, 0);
    Then(c1, SampleBefore, Finishing(0, c.words));
    Then(c, CallRead, [SampleBefore] + Finishing(0, c.words));
    assert [CallRead] + ([SampleBefore] + Finishing(0, c.words)) == [CallRead, SampleBefore] + Finishing(0, c.words);
  }

  lemma ReadStarts(c: Channel) returns (c1: Channel, c2: Channel)
    requires Safe(c) && (c.reader.Away? || c.reader.Returned?)
    ensures Enabled(c, CallRead) && c1 == Next(c, CallRead) && Enabled(c1, SampleBefore) && c2 == Next(c1, SampleBefore)
    ensures Safe(c1) && Safe(c2) && c2 == c1.(reader := Copying(0, c.counter, map[], {}))
    ensures c2.words == c.words && c2.counter == c.counter && c2.buffers == c.buffers && c2.published == c.published
    ensures c.counter > 0 ==> |c.published| == c.counter && c.Buffer(c.counter - 1) == c.published[c.counter - 1]
  {
    c1 := Next(c, CallRead);
    c2 := Next(c1, SampleBefore);
    ReaderStepsKeep(c, CallRead);
    ReaderStepsKeep(c1, SampleBefore);
  }
}
