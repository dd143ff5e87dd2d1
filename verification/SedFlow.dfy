// fuzz/fuzz_sed.c beside src/util/sed.c: the loops the filter looks for, and the loops sed can run in.

/** What the filter looks for, and what it does not reckon with. */
module SedFlow {
  import opened SedClassify
  import opened SedParser
  import opened SedReading
  import opened SedMachine

  // ---- the filter's view

  predicate Jumps(ks: seq<Kind>, i: nat, j: nat) {
    i < |ks| && j < |ks| && ks[i].Branch? && ks[i].name != "" && ks[j] == Label(ks[i].name)
  }

  predicate Consumer(ks: seq<Kind>, lo: nat, hi: nat)
    requires hi < |ks|
  {
    exists k :: lo <= k <= hi && ks[k].Consume?
  }

  predicate BackEdge(ks: seq<Kind>, i: nat, j: nat) { j <= i && Jumps(ks, i, j) && !Consumer(ks, j, i) }

  /** What the filter looks for: a branch to a label at or before it, with nothing that
      consumes in between. */
  ghost predicate LoopsBack(ks: seq<Kind>) { exists i, j :: BackEdge(ks, i, j) }

  // ---- where the filter's view and sed's part

  /** `at` gives the segment each command is seen in, which the filter takes for what it is; -1 for none. */
  ghost predicate Match(ks: seq<Kind>, cs: seq<Cmd>, at: seq<int>) {
    && |at| == |cs|
    && (forall k :: 0 <= k < |at| && 0 <= at[k] ==> at[k] < |ks| && Agree(ks[at[k]], cs[k].verb))
    && (forall j, k :: 0 <= j < k < |at| && 0 <= at[j] && 0 <= at[k] ==> at[j] < at[k])
  }

  predicate Seen(ks: seq<Kind>, at: seq<int>, x: State) { x.pc < |at| && 0 <= at[x.pc] < |ks| }

  /** From a command the filter does not see: it shares a segment with another one, or is cut in two. */
  predicate Unseen(ks: seq<Kind>, at: seq<int>, a: State) { !Seen(ks, at, a) }

  /** From a consuming command that does not consume: it is not selected, or it is a `D` that restarts. */
  predicate Idle(ks: seq<Kind>, at: seq<int>, a: State) { Seen(ks, at, a) && ks[at[a.pc]].Consume? }

  /** Forward past a consuming segment: a command branched over, or what only looks like one in the middle of
      another command or of a comment. */
  predicate Leaps(ks: seq<Kind>, at: seq<int>, a: State, b: State) {
    Seen(ks, at, a) && Seen(ks, at, b) && a.pc < b.pc && Consumer(ks, at[a.pc], at[b.pc])
  }

  /** Back by a branch whose name the filter reads with the blanks behind it. */
  predicate Renamed(ks: seq<Kind>, cs: seq<Cmd>, at: seq<int>, a: State, b: State) {
    && Seen(ks, at, a) && a.pc < |cs| && b.pc <= a.pc && Branches(cs[a.pc].verb)
    && ks[at[a.pc]] != Branch(cs[a.pc].verb.name)
  }

  /** A step the filter does not reckon with. */
  predicate Gap(ks: seq<Kind>, cs: seq<Cmd>, at: seq<int>, a: State, b: State) {
    Unseen(ks, at, a) || Idle(ks, at, a) || Leaps(ks, at, a, b) || Renamed(ks, cs, at, a, b)
  }

  /** A step along a back edge the filter finds. */
  predicate Crosses(ks: seq<Kind>, at: seq<int>, a: State, b: State) {
    Seen(ks, at, a) && Seen(ks, at, b) && BackEdge(ks, at[a.pc], at[b.pc])
  }

  // ---- every other step falls

  /** Consuming segments before a position. */
  function Before(ks: seq<Kind>, i: nat): nat
    requires i <= |ks|
  {
    if i == 0 then 0 else Before(ks, i - 1) + if ks[i - 1].Consume? then 1 else 0
  }

  lemma {:induction false} BeforeMonotone(ks: seq<Kind>, i: nat, j: nat)
    requires i <= j <= |ks|
    ensures Before(ks, i) <= Before(ks, j)
    ensures Before(ks, i) == Before(ks, j) <==> forall k :: i <= k < j ==> !ks[k].Consume?
    decreases j
  {
    if i < j {
      BeforeMonotone(ks, i, j - 1);
      assert i <= j - 1 < j;
    }
  }

  lemma {:induction false} BeforeBounded(ks: seq<Kind>, i: nat)
    requires i <= |ks|
    ensures Before(ks, i) <= i
  {
    if 0 < i { BeforeBounded(ks, i - 1); }
  }

  /** The pair (consuming segments before the position, segments remaining), as one number. */
  function Measure(ks: seq<Kind>, i: nat): nat
    requires i < |ks|
  {
    Before(ks, i) * (|ks| + 1) + (|ks| - i)
  }

  /** That of the command to come; nothing at the end and where the filter sees none. */
  function Height(ks: seq<Kind>, at: seq<int>, x: State): nat {
    if Seen(ks, at, x) then Measure(ks, at[x.pc]) else 0
  }

  lemma {:induction false} Scaled(m: nat, n: nat, w: nat)
    requires m < n
    ensures m * w + w <= n * w
    decreases n
  {
    assert n * w == (n - 1) * w + w;
    if m < n - 1 { Scaled(m, n - 1, w); }
  }

  lemma {:induction false} MeasurePositive(ks: seq<Kind>, i: nat)
    requires i < |ks|
    ensures 0 < Measure(ks, i) <= (|ks| + 1) * (|ks| + 1)
  {
    BeforeBounded(ks, i);
    Scaled(Before(ks, i), |ks| + 1, |ks| + 1);
    assert Before(ks, i) * (|ks| + 1) >= 0;
  }

  lemma {:induction false} BackFalls(ks: seq<Kind>, i: nat, j: nat)
    requires Jumps(ks, i, j) && j <= i && !BackEdge(ks, i, j)
    ensures Measure(ks, j) < Measure(ks, i)
  {
    BeforeMonotone(ks, j, i);
    Scaled(Before(ks, j), Before(ks, i), |ks| + 1);
  }

  lemma {:induction false} ForwardFalls(ks: seq<Kind>, i: nat, j: nat)
    requires i < j < |ks| && !Consumer(ks, i, j)
    ensures Measure(ks, j) < Measure(ks, i)
  {
    assert forall k :: i <= k < j ==> !ks[k].Consume?;
    BeforeMonotone(ks, i, j);
  }

  /** A step back is a restart, or by a branch to the first label of its name. */
  lemma {:induction false} BackByBranch(cs: seq<Cmd>, a: State, b: State)
    requires Step(cs, a, b) && b.pc <= a.pc && !cs[a.pc].verb.DeleteFirst?
    ensures Branches(cs[a.pc].verb) && cs[a.pc].verb.name != "" && cs[b.pc].verb == Mark(cs[a.pc].verb.name)
  {
  }

  lemma {:induction false} HeightFalls(ks: seq<Kind>, cs: seq<Cmd>, at: seq<int>, a: State, b: State)
    requires Match(ks, cs, at) && Step(cs, a, b) && !Gap(ks, cs, at, a, b) && !Crosses(ks, at, a, b)
    ensures Height(ks, at, b) < Height(ks, at, a)
  {
    var i := at[a.pc];
    assert Agree(ks[i], cs[a.pc].verb);
    if !Seen(ks, at, b) {
      MeasurePositive(ks, i);
    } else if b.pc <= a.pc {
      BackByBranch(cs, a, b);
      hide Step, Measure, Consumer;
      BackFalls(ks, i, at[b.pc]);
    } else {
      hide Step, Measure, Consumer;
      ForwardFalls(ks, i, at[b.pc]);
    }
  }

  ghost predicate Ordinary(ks: seq<Kind>, cs: seq<Cmd>, at: seq<int>, path: seq<State>) {
    forall k :: 0 <= k < |path| - 1 ==> !Gap(ks, cs, at, path[k], path[k + 1]) && !Crosses(ks, at, path[k], path[k + 1])
  }

  lemma {:induction false} OrdinaryFalls(ks: seq<Kind>, cs: seq<Cmd>, at: seq<int>, path: seq<State>)
    requires Match(ks, cs, at) && Path(cs, path) && path != [] && Ordinary(ks, cs, at, path)
    ensures Height(ks, at, path[|path| - 1]) + |path| - 1 <= Height(ks, at, path[0])
    decreases |path|
  {
    hide Step, Height, Gap, Crosses, Match;
    if 1 < |path| {
      assert Step(cs, path[0], path[0 + 1]) && !Gap(ks, cs, at, path[0], path[0 + 1]);
      HeightFalls(ks, cs, at, path[0], path[1]);
      Part(cs, path, 1, |path|);
      var rest := path[1..];
      forall k | 0 <= k < |rest| - 1
        ensures !Gap(ks, cs, at, rest[k], rest[k + 1]) && !Crosses(ks, at, rest[k], rest[k + 1])
      {
        assert !Gap(ks, cs, at, path[k + 1], path[(k + 1) + 1]) && !Crosses(ks, at, path[k + 1], path[(k + 1) + 1]);
      }
      OrdinaryFalls(ks, cs, at, rest);
    }
  }

  /** An accepted script comes to its end or to a line within a bound quadratic in its segments, gaps aside. */
  lemma {:induction false} AcceptedHalts(ks: seq<Kind>, cs: seq<Cmd>, at: seq<int>, path: seq<State>)
    requires Match(ks, cs, at) && Path(cs, path) && !LoopsBack(ks)
    requires forall k :: 0 <= k < |path| - 1 ==> !Gap(ks, cs, at, path[k], path[k + 1])
    ensures |path| <= (|ks| + 1) * (|ks| + 1) + 1
  {
    hide Measure, Step, Gap;
    if path != [] {
      OrdinaryFalls(ks, cs, at, path);
      if Seen(ks, at, path[0]) { MeasurePositive(ks, at[path[0].pc]); } else { Scaled(0, 1, (|ks| + 1) * (|ks| + 1)); }
    }
  }

  // ---- the verdict

  ghost predicate TakesGap(ks: seq<Kind>, cs: seq<Cmd>, at: seq<int>, path: seq<State>) {
    exists k :: 0 <= k < |path| - 1 && Gap(ks, cs, at, path[k], path[k + 1])
  }

  ghost predicate TakesEdge(ks: seq<Kind>, at: seq<int>, path: seq<State>) {
    exists k :: 0 <= k < |path| - 1 && Crosses(ks, at, path[k], path[k + 1])
  }

  /** A way round takes a gap or a back edge the filter finds. */
  lemma {:induction false} RoundTakes(ks: seq<Kind>, cs: seq<Cmd>, at: seq<int>, round: seq<State>)
    requires Match(ks, cs, at) && Round(cs, round)
    ensures TakesGap(ks, cs, at, round) || TakesEdge(ks, at, round)
  {
    hide Gap, Crosses, Reached, Restartless, Step, Match;
    if !TakesGap(ks, cs, at, round) && !TakesEdge(ks, at, round) {
      OrdinaryFalls(ks, cs, at, round);
    }
  }

  ghost predicate GapCloses(ks: seq<Kind>, cs: seq<Cmd>, at: seq<int>, round: seq<State>) {
    Round(cs, round) && TakesGap(ks, cs, at, round)
  }

  ghost predicate EdgeCloses(ks: seq<Kind>, cs: seq<Cmd>, at: seq<int>, round: seq<State>) {
    Round(cs, round) && TakesEdge(ks, at, round)
  }

  /** Any script can run forever exactly when sed takes it and a gap or a back edge closes a way round. */
  lemma {:induction false} EndlessWays(ks: seq<Kind>, cs: seq<Cmd>, at: seq<int>)
    requires Match(ks, cs, at)
    ensures Endless(cs) <==>
            Resolved(cs) && exists round :: GapCloses(ks, cs, at, round) || EdgeCloses(ks, cs, at, round)
  {
    hide Round, Resolved, TakesGap, TakesEdge, Match;
    EndlessExactly(cs);
    if Endless(cs) {
      var round := EndlessHasRound(cs);
      RoundTakes(ks, cs, at, round);
      assert GapCloses(ks, cs, at, round) || EdgeCloses(ks, cs, at, round);
    }
  }

  /** An accepted one exactly when a gap does. */
  lemma {:induction false} AcceptedExact(ks: seq<Kind>, cs: seq<Cmd>, at: seq<int>)
    requires Match(ks, cs, at) && !LoopsBack(ks)
    ensures Endless(cs) <==> Resolved(cs) && exists round :: GapCloses(ks, cs, at, round)
  {
    EndlessWays(ks, cs, at);
    hide Round, Resolved, Endless, Match, TakesGap;
    forall round ensures !EdgeCloses(ks, cs, at, round) { }
    if Endless(cs) {
      var round :| GapCloses(ks, cs, at, round) || EdgeCloses(ks, cs, at, round);
      assert GapCloses(ks, cs, at, round);
    }
  }

  /** The filter is right exactly when it rejects a script sed takes in which a back edge or a gap closes a way
      round, or accepts one in which no gap does. */
  lemma {:induction false} FilterExactly(ks: seq<Kind>, cs: seq<Cmd>, at: seq<int>)
    requires Match(ks, cs, at)
    ensures (LoopsBack(ks) <==> Endless(cs)) <==>
            if LoopsBack(ks) then
              Resolved(cs) && exists round :: GapCloses(ks, cs, at, round) || EdgeCloses(ks, cs, at, round)
            else !(Resolved(cs) && exists round :: GapCloses(ks, cs, at, round))
  {
    if LoopsBack(ks) { EndlessWays(ks, cs, at); } else { AcceptedExact(ks, cs, at); }
  }

  // ---- rejected scripts that do run forever

  /** A command sed can go on from to the next one, whatever it is working on. */
  predicate LetsPass(c: Cmd) {
    if c.verb.Open? then c.gate != Never
    else
      || c.gate != Always || c.verb.Plain? || c.verb.Substitute? || c.verb.Translate? || c.verb.Get?
      || c.verb.GetAppend? || c.verb.Hold? || c.verb.HoldAppend? || c.verb.Exchange? || c.verb.Mark? || c.verb.Close?
  }

  lemma {:induction false} PassStep(cs: seq<Cmd>, a: State) returns (b: State)
    requires a.pc < |cs| && LetsPass(cs[a.pc])
    ensures Step(cs, a, b) && b.pc == a.pc + 1 && b.flag == a.flag
  {
    var c := cs[a.pc];
    b := a.(pc := a.pc + 1);
    if c.gate == Always {
      match c.verb {
        case Get => b := b.(pattern := a.hold);
        case GetAppend => b := b.(pattern := a.pattern + 1 + a.hold);
        case Hold => b := b.(hold := a.pattern);
        case HoldAppend => b := b.(hold := a.hold + 1 + a.pattern);
        case Exchange => b := b.(pattern := a.hold, hold := a.pattern);
        case _ =>
      }
    }
  }

  lemma {:induction false} Passage(cs: seq<Cmd>, a: State, i: nat) returns (path: seq<State>)
    requires a.pc <= i < |cs| && forall k :: a.pc <= k < i ==> LetsPass(cs[k])
    ensures |path| == i - a.pc + 1 && path[0] == a && Path(cs, path)
    ensures forall k :: 0 <= k < |path| ==> path[k].pc == a.pc + k && path[k].flag == a.flag
    decreases i - a.pc
  {
    if a.pc == i {
      path := [a];
    } else {
      var b := PassStep(cs, a);
      hide Step, LetsPass;
      var rest := Passage(cs, b, i);
      path := [a] + rest;
      forall k | 0 <= k < |path| - 1 ensures Step(cs, path[k], path[k + 1]) {
        if k > 0 { assert Step(cs, rest[k - 1], rest[k - 1 + 1]); }
      }
    }
  }

  /** A rejected script runs forever when sed gets to the label the filter found, every command up to the branch
      lets it pass, and the branch goes to that label. */
  lemma {:induction false} RejectedLoops(ks: seq<Kind>, cs: seq<Cmd>, at: seq<int>, i: nat, a: State)
    requires Match(ks, cs, at) && Resolved(cs) && Reached(cs, a) && a.pc <= i < |cs|
    requires 0 <= at[i] && 0 <= at[a.pc] && BackEdge(ks, at[i], at[a.pc])
    requires cs[i].verb.Jump? && cs[i].gate != Never && FirstMark(cs, cs[i].verb.name) == a.pc
    requires forall k :: a.pc <= k < i ==> LetsPass(cs[k])
    ensures Endless(cs)
  {
    var path := Passage(cs, a, i);
    var last := path[|path| - 1];
    var round := path + [last.(pc := a.pc)];
    assert cs[i].verb.name != "" by { assert Agree(ks[at[i]], cs[i].verb) && Agree(ks[at[a.pc]], cs[a.pc].verb); }
    forall k | 0 <= k < |round| - 1
      ensures Step(cs, round[k], round[k + 1]) && !Restarts(cs, round[k], round[k + 1])
    {
      if k + 1 < |path| { assert Step(cs, path[k], path[k + 1]); }
    }
    hide Step, Restarts, Reached, Match, Resolved;
    assert Circle(cs, round);
    RoundIsEndless(cs, round);
  }
}
