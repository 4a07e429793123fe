/**
 * The per-channel temperature seqlock, word by word: one writer and any number
 * of readers take turns in any order. A measurement is three machine words, so
 * a reader can meet it half written; words are copied in any order.
 */
module Seqlock {
  import opened Basics

  datatype Word = Lo | Hi | Fault

  const AllWords: set<Word> := {Lo, Hi, Fault}

  /** A double's two words, and the word holding the fault byte. */
  datatype Measure = Measure(lo: nat, hi: nat, fault: nat)
  {
    function Get(w: Word): nat {
      match w
      case Lo => lo
      case Hi => hi
      case Fault => fault
    }

    function Set(w: Word, v: nat): Measure {
      match w
      case Lo => this.(lo := v)
      case Hi => this.(hi := v)
      case Fault => this.(fault := v)
    }
  }

  /** Where the sensor task stands in process_image_write_temp. */
  datatype Writer =
    | WIdle
    | WClaimed(claimed: nat, data: Measure)                    // has read the counter
    | WWriting(claimed: nat, data: Measure, left: set<Word>)   // counter is odd

  /** Where a reader stands in process_image_read_temp, and what it has returned so far. */
  datatype Reader = Reader(phase: Phase, results: seq<Measure>, from: seq<nat>)

  /** newest and mid record, for the proofs, how far the writer was when s0 was read:
      the last pair published, and whether the next was being written. */
  datatype Phase =
    | RIdle
    | RReading(s0: nat, got: map<Word, nat>, newest: nat, mid: bool)

  /** published[0] is the boot default; each completed write adds one. */
  datatype State = State(counter: nat, cell: Measure, writer: Writer, readers: seq<Reader>, published: seq<Measure>)

  datatype Step =
    | WBegin(data: Measure) | WOdd | WWord(w: Word) | WEven
    | RBegin(i: nat) | RWord(i: nat, w: Word) | RCheck(i: nat)

  /** process_image_init: counter 0, value 0, fault 1. */
  const BootDefault := Measure(0, 0, 1)

  function Boot(n: nat): State {
    State(0, BootDefault, WIdle, seq(n, _ => Reader(RIdle, [], [])), [BootDefault])
  }

  function MeasureOf(got: map<Word, nat>): Measure
    requires got.Keys == AllWords
  {
    Measure(got[Lo], got[Hi], got[Fault])
  }

  /** The index of the last pair whose write has completed. */
  function Newest(s: State): nat { if s.published == [] then 0 else |s.published| - 1 }

  function SetPhase(s: State, i: nat, p: Phase): State
    requires i < |s.readers|
  {
    s.(readers := s.readers[i := s.readers[i].(phase := p)])
  }

  function Accept(s: State, i: nat, m: Measure, source: nat): State
    requires i < |s.readers|
  {
    var r := s.readers[i];
    s.(readers := s.readers[i := Reader(RIdle, r.results + [m], r.from + [source])])
  }

  /** One atomic step; a step that is not enabled changes nothing. */
  function Next(s: State, step: Step): State {
    match step
    case WBegin(data) =>
      if s.writer.WIdle? then s.(writer := WClaimed(s.counter, data)) else s
    case WOdd =>
      if s.writer.WClaimed?
      then s.(counter := (s.writer.claimed + 1) % U32, writer := WWriting(s.writer.claimed, s.writer.data, AllWords))
      else s
    case WWord(w) =>
      if s.writer.WWriting? && w in s.writer.left
      then s.(cell := s.cell.Set(w, s.writer.data.Get(w)), writer := s.writer.(left := s.writer.left - {w})) else s
    case WEven =>
      if s.writer.WWriting? && s.writer.left == {}
      then s.(counter := (s.writer.claimed + 2) % U32, writer := WIdle, published := s.published + [s.writer.data])
      else s
    case RBegin(i) =>
      if i < |s.readers| && s.readers[i].phase.RIdle?
      then SetPhase(s, i, RReading(s.counter, map[], Newest(s), s.writer.WWriting?)) else s
    case RWord(i, w) =>
      if i < |s.readers| && s.readers[i].phase.RReading? && w !in s.readers[i].phase.got
      then SetPhase(s, i, s.readers[i].phase.(got := s.readers[i].phase.got[w := s.cell.Get(w)])) else s
    case RCheck(i) =>
      if i < |s.readers| && s.readers[i].phase.RReading? && s.readers[i].phase.got.Keys == AllWords then
        var p := s.readers[i].phase;
        if p.s0 % 2 == 1 || p.s0 != s.counter then SetPhase(s, i, RIdle)
        else Accept(s, i, MeasureOf(p.got), p.newest)
      else s
  }

  function Exec(s: State, steps: seq<Step>): State
    decreases |steps|
  {
    if steps == [] then s else Exec(Next(s, steps[0]), steps[1..])
  }

  /** Fewer than 2^31 writes complete between reading the counter and checking it again. */
  predicate Timely(s: State, step: Step) {
    step.RCheck? && step.i < |s.readers| && s.readers[step.i].phase.RReading? ==>
      Newest(s) - s.readers[step.i].phase.newest < U32 / 2
  }

  predicate AllTimely(s: State, steps: seq<Step>)
    decreases |steps|
  {
    steps == [] || (Timely(s, steps[0]) && AllTimely(Next(s, steps[0]), steps[1..]))
  }

  // ----- the invariant -----

  /** Counter increments so far, not wrapped. */
  function Bumps(newest: nat, mid: bool): nat {
    2 * newest + if mid then 1 else 0
  }

  predicate WriterInv(s: State) {
    && s.published != []
    && s.counter == Bumps(Newest(s), s.writer.WWriting?) % U32
    && (!s.writer.WIdle? ==> s.writer.claimed == Bumps(Newest(s), false) % U32)
    && (!s.writer.WWriting? ==> s.cell == s.published[Newest(s)])
    && (s.writer.WWriting? ==> forall w: Word :: w in s.writer.left || s.cell.Get(w) == s.writer.data.Get(w))
  }

  /** While the counter has not moved since s0 was read even, the words read are those of the pair published then. */
  ghost predicate PhaseInv(s: State, p: Phase) {
    p.RReading? ==>
      && p.newest < |s.published|
      && p.got.Keys <= AllWords
      && p.s0 == Bumps(p.newest, p.mid) % U32
      && Bumps(p.newest, p.mid) <= Bumps(Newest(s), s.writer.WWriting?)
      && (!p.mid && p.newest == Newest(s) && !s.writer.WWriting? ==>
            forall w | w in p.got :: p.got[w] == s.published[p.newest].Get(w))
  }

  /** Each result is the published pair it is said to come from; sources never go back. */
  ghost predicate ResultsInv(s: State, r: Reader) {
    && |r.from| == |r.results|
    && (forall k | 0 <= k < |r.from| :: r.from[k] < |s.published| && r.results[k] == s.published[r.from[k]])
    && (forall k, l | 0 <= k <= l < |r.from| :: r.from[k] <= r.from[l])
    && (r.phase.RReading? ==> forall k | 0 <= k < |r.from| :: r.from[k] <= r.phase.newest)
  }

  ghost predicate ReaderInv(s: State, r: Reader) {
    PhaseInv(s, r.phase) && ResultsInv(s, r)
  }

  ghost predicate Inv(s: State) {
    WriterInv(s) && forall i | 0 <= i < |s.readers| :: ReaderInv(s, s.readers[i])
  }

  /** A counter that looks unchanged and even is unchanged, if fewer than 2^31 writes completed. */
  lemma NoWrap(newest0: nat, mid0: bool, newest: nat, mid: bool)
    requires newest0 <= newest && newest - newest0 < U32 / 2
    requires Bumps(newest0, mid0) <= Bumps(newest, mid)
    requires Bumps(newest0, mid0) % U32 == Bumps(newest, mid) % U32 && (Bumps(newest0, mid0) % U32) % 2 == 0
    ensures newest0 == newest && !mid0 && !mid
  {
    var a, b := Bumps(newest0, mid0), Bumps(newest, mid);
    SameRemainder(a, b);
    assert a == b && a % 2 == 0;
  }

  lemma SameRemainder(a: nat, b: nat)
    requires a % U32 == b % U32 && a <= b < a + U32
    ensures a == b && (a % U32) % 2 == a % 2
  {
    assert a == U32 * (a / U32) + a % U32 && b == U32 * (b / U32) + b % U32;
  }

  lemma NextBump(n: nat)
    ensures (n % U32 + 1) % U32 == (n + 1) % U32 && (n % U32 + 2) % U32 == (n + 2) % U32
  {
  }

  /** The writer's steps: a reader who has started sees the counter move before any word changes. */
  lemma WriterStepKeepsInv(s: State, step: Step)
    requires Inv(s) && (step.WBegin? || step.WOdd? || step.WWord? || step.WEven?)
    ensures Inv(Next(s, step))
  {
    var t := Next(s, step);
    NextBump(Bumps(Newest(s), false));
    if step.WEven? && t != s {
      assert s.cell.Get(Lo) == s.writer.data.Get(Lo) && s.cell.Get(Hi) == s.writer.data.Get(Hi)
          && s.cell.Get(Fault) == s.writer.data.Get(Fault);
      assert Newest(t) == Newest(s) + 1 && t.published[Newest(t)] == t.cell;
    }
    forall i | 0 <= i < |t.readers| ensures ReaderInv(t, t.readers[i]) {
      assert ReaderInv(s, s.readers[i]);
      assert forall k | 0 <= k < |s.published| :: t.published[k] == s.published[k];
    }
  }

  /** What a reader's step does to the reader that takes it. */
  lemma ReaderStepKeepsInv(s: State, step: Step, i: nat)
    requires Inv(s) && Timely(s, step) && i < |s.readers|
    requires step == RBegin(i) || (exists w :: step == RWord(i, w)) || step == RCheck(i)
    ensures ReaderInv(Next(s, step), Next(s, step).readers[i])
  {
    assert ReaderInv(s, s.readers[i]);
    var p := s.readers[i].phase;
    if step.RCheck? && p.RReading? && p.got.Keys == AllWords && p.s0 % 2 == 0 && p.s0 == s.counter {
      NoWrap(p.newest, p.mid, Newest(s), s.writer.WWriting?);
      assert MeasureOf(p.got) == s.published[p.newest];
    }
  }

  lemma StepKeepsInv(s: State, step: Step)
    requires Inv(s) && Timely(s, step)
    ensures Inv(Next(s, step))
  {
    if step.RBegin? || step.RWord? || step.RCheck? {
      if step.i < |s.readers| {
        ReaderStepKeepsInv(s, step, step.i);
        OthersKept(s, step);
      }
    } else {
      WriterStepKeepsInv(s, step);
    }
  }

  lemma OthersKept(s: State, step: Step)
    requires Inv(s) && (step.RBegin? || step.RWord? || step.RCheck?) && step.i < |s.readers|
    ensures var t := Next(s, step);
            && t.(readers := s.readers) == s && |t.readers| == |s.readers|
            && forall k | 0 <= k < |t.readers| && k != step.i :: t.readers[k] == s.readers[k]
  {
  }

  lemma {:induction false} RunKeepsInv(s: State, steps: seq<Step>)
    requires Inv(s) && AllTimely(s, steps)
    ensures Inv(Exec(s, steps))
    decreases |steps|
  {
    if steps != [] {
      StepKeepsInv(s, steps[0]);
      RunKeepsInv(Next(s, steps[0]), steps[1..]);
    }
  }

  /** Readers are neither added nor lost, and published pairs are only appended. */
  lemma {:induction false} RunFrame(s: State, steps: seq<Step>)
    ensures |Exec(s, steps).readers| == |s.readers| && s.published <= Exec(s, steps).published
    decreases |steps|
  {
    if steps != [] {
      RunFrame(Next(s, steps[0]), steps[1..]);
    }
  }

  /** In every interleaving every accepted pair was published whole (or is the boot default),
      and no reader's successive results go back in time. */
  lemma AcceptedPairsAreWhole(n: nat, steps: seq<Step>, i: nat)
    requires i < n && AllTimely(Boot(n), steps)
    ensures var t := Exec(Boot(n), steps);
            && |t.readers| == n && [BootDefault] <= t.published
            && |t.readers[i].from| == |t.readers[i].results|
            && (forall k | 0 <= k < |t.readers[i].results| ::
                  t.readers[i].from[k] < |t.published| && t.readers[i].results[k] == t.published[t.readers[i].from[k]])
            && (forall k, l | 0 <= k <= l < |t.readers[i].from| :: t.readers[i].from[k] <= t.readers[i].from[l])
  {
    RunKeepsInv(Boot(n), steps);
    RunFrame(Boot(n), steps);
    assert ReaderInv(Exec(Boot(n), steps), Exec(Boot(n), steps).readers[i]);
  }

  /** An accepted pair is the newest whose write had completed when the attempt read the counter,
      and no later write has started. */
  lemma AcceptedIsFresh(s: State, i: nat)
    requires Inv(s) && Timely(s, RCheck(i)) && i < |s.readers|
    requires |Next(s, RCheck(i)).readers[i].results| > |s.readers[i].results|
    ensures s.readers[i].phase.RReading? && s.readers[i].phase.newest == Newest(s) && !s.writer.WWriting?
    ensures Next(s, RCheck(i)).readers[i].results == s.readers[i].results + [s.published[Newest(s)]]
  {
    assert ReaderInv(s, s.readers[i]);
    var p := s.readers[i].phase;
    NoWrap(p.newest, p.mid, Newest(s), s.writer.WWriting?);
    assert MeasureOf(p.got) == s.published[p.newest];
  }

  // ----- one attempt, one write -----

  lemma ExecStep(s: State, step: Step, rest: seq<Step>)
    ensures Exec(s, [step] + rest) == Exec(Next(s, step), rest)
  {
    assert ([step] + rest)[1..] == rest;
  }

  lemma {:induction false} ExecConcat(s: State, a: seq<Step>, b: seq<Step>)
    ensures Exec(s, a + b) == Exec(Exec(s, a), b)
    decreases |a|
  {
    if a == [] {
      assert a + b == b;
    } else {
      assert (a + b)[1..] == a[1..] + b;
      ExecConcat(Next(s, a[0]), a[1..], b);
    }
  }

  lemma ExecThree(s: State, a: Step, b: Step, c: Step)
    ensures Exec(s, [a, b, c]) == Next(Next(Next(s, a), b), c)
  {
    ExecStep(s, a, [b, c]);
    ExecStep(Next(s, a), b, [c]);
    ExecStep(Next(Next(s, a), b), c, []);
    assert [a] + [b, c] == [a, b, c] && [b] + [c] == [b, c];
  }

  /** The rest of an attempt whose low word has been read, met by no writer. */
  function FinishRead(i: nat): seq<Step> { [RWord(i, Hi), RWord(i, Fault), RCheck(i)] }

  lemma FinishReadEffect(s: State, i: nat, p: Phase)
    requires i < |s.readers| && s.readers[i].phase == p && p.RReading? && p.got.Keys == {Lo}
    requires p.s0 == s.counter && s.counter % 2 == 0
    ensures var t := Exec(s, FinishRead(i));
            |t.readers| == |s.readers| && t.published == s.published
            && t.readers[i].results == s.readers[i].results + [Measure(p.got[Lo], s.cell.hi, s.cell.fault)]
  {
    hide Exec;
    var s1 := Next(s, RWord(i, Hi));
    var s2 := Next(s1, RWord(i, Fault));
    assert s2 == SetPhase(s, i, p.(got := p.got[Hi := s.cell.hi][Fault := s.cell.fault]));
    ExecThree(s, RWord(i, Hi), RWord(i, Fault), RCheck(i));
  }

  /** Once the writer is not mid-write and pauses, one attempt succeeds, with the newest pair. */
  lemma QuietReadAccepts(s: State, i: nat)
    requires Inv(s) && i < |s.readers| && s.readers[i].phase.RIdle? && !s.writer.WWriting?
    ensures var t := Exec(s, [RBegin(i), RWord(i, Lo)] + FinishRead(i));
            |t.readers| == |s.readers| && t.readers[i].results == s.readers[i].results + [s.published[Newest(s)]]
  {
    hide Exec;
    var p := RReading(s.counter, map[Lo := s.cell.lo], Newest(s), false);
    StartRead(s, i);
    ExecConcat(s, [RBegin(i), RWord(i, Lo)], FinishRead(i));
    FinishReadEffect(SetPhase(s, i, p), i, p);
  }

  lemma StartRead(s: State, i: nat)
    requires i < |s.readers| && s.readers[i].phase.RIdle?
    ensures Exec(s, [RBegin(i), RWord(i, Lo)])
         == SetPhase(s, i, RReading(s.counter, map[Lo := s.cell.lo], Newest(s), s.writer.WWriting?))
  {
    hide Exec;
    ExecStep(s, RBegin(i), [RWord(i, Lo)]);
    ExecStep(Next(s, RBegin(i)), RWord(i, Lo), []);
    assert [RBegin(i)] + [RWord(i, Lo)] == [RBegin(i), RWord(i, Lo)] && [RWord(i, Lo)] + [] == [RWord(i, Lo)];
    var none: map<Word, nat> := map[];
    var p := RReading(s.counter, none, Newest(s), s.writer.WWriting?);
    assert none[Lo := s.cell.lo] == map[Lo := s.cell.lo];
    assert Next(s, RBegin(i)) == SetPhase(s, i, p);
    assert SetPhase(SetPhase(s, i, p), i, p.(got := map[Lo := s.cell.lo]))
      == SetPhase(s, i, p.(got := map[Lo := s.cell.lo]));
    ExecNothing(Next(Next(s, RBegin(i)), RWord(i, Lo)));
  }

  lemma ExecNothing(s: State)
    ensures Exec(s, []) == s
  {
  }

  function WriteSteps(data: Measure): seq<Step> {
    [WBegin(data), WOdd, WWord(Lo)] + [WWord(Hi), WWord(Fault), WEven]
  }

  lemma WriteEffect(s: State, data: Measure)
    requires s.writer.WIdle? && s.counter < U32
    ensures Exec(s, WriteSteps(data))
         == s.(counter := (s.counter + 2) % U32, cell := data, published := s.published + [data])
  {
    hide Exec;
    ExecConcat(s, [WBegin(data), WOdd, WWord(Lo)], [WWord(Hi), WWord(Fault), WEven]);
    ExecThree(s, WBegin(data), WOdd, WWord(Lo));
    var t := s.(counter := (s.counter + 1) % U32, cell := s.cell.(lo := data.lo),
                writer := WWriting(s.counter, data, AllWords - {Lo}));
    assert Next(Next(Next(s, WBegin(data)), WOdd), WWord(Lo)) == t;
    ExecThree(t, WWord(Hi), WWord(Fault), WEven);
    assert AllWords - {Lo} - {Hi} - {Fault} == {};
  }

  // ----- the bound on completed writes is tight -----

  function Writes(data: Measure, k: nat): seq<Step> {
    if k == 0 then [] else Writes(data, k - 1) + WriteSteps(data)
  }

  lemma {:induction false} WritesEffect(s: State, data: Measure, k: nat)
    requires s.writer.WIdle? && s.counter < U32
    ensures var t := Exec(s, Writes(data, k));
            && t.counter == (s.counter + 2 * k) % U32 && t.writer.WIdle? && t.readers == s.readers
            && (k > 0 ==> t.cell == data)
            && forall m | m in t.published :: m in s.published || m == data
    decreases k
  {
    if k > 0 {
      WritesEffect(s, data, k - 1);
      var t := Exec(s, Writes(data, k - 1));
      ExecConcat(s, Writes(data, k - 1), WriteSteps(data));
      WriteEffect(t, data);
      WrapTwice(s.counter, k);
    }
  }

  lemma WrapTwice(c: nat, k: nat)
    requires k > 0
    ensures ((c + 2 * (k - 1)) % U32 + 2) % U32 == (c + 2 * k) % U32
  {
  }

  /** With 2^31 writes completed during one attempt the counter returns and a torn pair is accepted. */
  lemma TornAfterWrap(data: Measure)
    requires data.lo != BootDefault.lo && (data.hi != BootDefault.hi || data.fault != BootDefault.fault)
    ensures var t := Exec(Boot(1), ([RBegin(0), RWord(0, Lo)] + Writes(data, U32 / 2)) + FinishRead(0));
            |t.readers| == 1 && |t.readers[0].results| == 1 && t.readers[0].results[0] !in t.published
  {
    hide Exec, Writes;
    var p := RReading(0, map[Lo := BootDefault.lo], 0, false);
    var s := SetPhase(Boot(1), 0, p);
    StartRead(Boot(1), 0);
    ExecConcat(Boot(1), [RBegin(0), RWord(0, Lo)], Writes(data, U32 / 2));
    WritesEffect(s, data, U32 / 2);
    var t := Exec(s, Writes(data, U32 / 2));
    ExecConcat(Boot(1), [RBegin(0), RWord(0, Lo)] + Writes(data, U32 / 2), FinishRead(0));
    FinishReadEffect(t, 0, p);
  }
}
