// src/util/sed.c: running a script, and when it never comes to read another line.

/** The flow of a script as sed runs it. */
module SedMachine {
  import opened Counting
  import opened Dickson
  import opened SedParser

  predicate Branches(v: Verb) { v.Jump? || v.Test? }

  /** The first label of that name, where sed goes; the end for none and for the empty name. */
  function Target(cs: seq<Cmd>, name: string): (i: nat)
    ensures i <= |cs|
  {
    if name == "" then |cs| else FirstMark(cs, name)
  }

  function FirstMark(cs: seq<Cmd>, name: string): (i: nat)
    ensures i <= |cs| && (i < |cs| ==> cs[i].verb == Mark(name))
  {
    if cs == [] || cs[0].verb == Mark(name) then 0 else 1 + FirstMark(cs[1..], name)
  }

  /** Behind the brace that closes the block with `depth` more open in it, from j on. */
  function BlockEnd(cs: seq<Cmd>, j: nat, depth: nat): (i: nat)
    requires j <= |cs|
    ensures j <= i <= |cs|
    decreases |cs| - j
  {
    if j == |cs| then j
    else if cs[j].verb.Open? then BlockEnd(cs, j + 1, depth + 1)
    else if cs[j].verb.Close? then if depth == 0 then j + 1 else BlockEnd(cs, j + 1, depth - 1)
    else BlockEnd(cs, j + 1, depth)
  }

  /** The braces from j on match, `depth` blocks being open. */
  predicate Balanced(cs: seq<Cmd>, j: nat, depth: nat)
    requires j <= |cs|
    decreases |cs| - j
  {
    if j == |cs| then depth == 0
    else if cs[j].verb.Open? then Balanced(cs, j + 1, depth + 1)
    else if cs[j].verb.Close? then 0 < depth && Balanced(cs, j + 1, depth - 1)
    else Balanced(cs, j + 1, depth)
  }

  /** sed refuses a script whose braces do not match, or that branches to a label it does not have. */
  predicate Resolved(cs: seq<Cmd>) {
    && Balanced(cs, 0, 0)
    && forall i :: 0 <= i < |cs| && Branches(cs[i].verb) && cs[i].verb.name != "" ==>
         FirstMark(cs, cs[i].verb.name) < |cs|
  }

  /** The command to come, |cs| at the end of the cycle; whether a substitution was made since `t` last asked;
      and the newlines in the pattern and the hold space. */
  datatype State = State(pc: nat, flag: bool, pattern: nat, hold: nat)

  const START := State(0, false, 0, 0)

  /** The command is not selected. */
  predicate Passes(cs: seq<Cmd>, a: State, b: State)
    requires a.pc < |cs|
  {
    var c := cs[a.pc];
    && c.gate != Always && !c.verb.Mark? && !c.verb.Close?
    && b == a.(pc := if c.verb.Open? then BlockEnd(cs, a.pc + 1, 0) else a.pc + 1)
  }

  /** What a substitution or translation can do to the newlines of the pattern space. */
  predicate Rewrites(grows: bool, before: nat, after: nat) { grows || after <= before }

  /** The command is selected, and reads no line and begins no cycle. */
  predicate Acts(cs: seq<Cmd>, a: State, b: State)
    requires a.pc < |cs|
  {
    var c := cs[a.pc];
    && (c.gate != Never || c.verb.Mark? || c.verb.Close?)
    && match c.verb
       case Substitute(grows) =>
         || b == a.(pc := a.pc + 1)
         || (b == a.(pc := a.pc + 1, flag := true, pattern := b.pattern) && Rewrites(grows, a.pattern, b.pattern))
       case Translate(grows) =>
         || b == a.(pc := a.pc + 1)
         || (b == a.(pc := a.pc + 1, pattern := b.pattern) && grows)
       case Get => b == a.(pc := a.pc + 1, pattern := a.hold)
       case GetAppend => b == a.(pc := a.pc + 1, pattern := a.pattern + 1 + a.hold)
       case Hold => b == a.(pc := a.pc + 1, hold := a.pattern)
       case HoldAppend => b == a.(pc := a.pc + 1, hold := a.hold + 1 + a.pattern)
       case Exchange => b == a.(pc := a.pc + 1, pattern := a.hold, hold := a.pattern)
       case Jump(name) => b == a.(pc := Target(cs, name))
       case Test(name) => b == a.(pc := if a.flag then Target(cs, name) else a.pc + 1, flag := false)
       case DeleteFirst => 0 < a.pattern && b == a.(pc := 0, pattern := a.pattern - 1)
       case Plain => b == a.(pc := a.pc + 1)
       case Open => b == a.(pc := a.pc + 1)
       case Close => b == a.(pc := a.pc + 1)
       case Mark(_) => b == a.(pc := a.pc + 1)
       case _ => false
  }

  /** One step that reads no line and begins no cycle.  Whether an addressed command is selected, whether a
      substitution is made and what it leaves are left open. */
  predicate Step(cs: seq<Cmd>, a: State, b: State) { a.pc < |cs| && (Passes(cs, a, b) || Acts(cs, a, b)) }

  /** A step that reads a line: for the next command, or for a new cycle. */
  predicate Reads(cs: seq<Cmd>, a: State, b: State) {
    var cycle := State(0, false, 0, a.hold);
    || (a.pc == |cs| && b == cycle)
    || (a.pc < |cs| && cs[a.pc].gate != Never &&
        match cs[a.pc].verb
        case Next => b == a.(pc := a.pc + 1, pattern := 0)
        case NextAppend => b == a.(pc := a.pc + 1, pattern := a.pattern + 1)
        case Delete => b == cycle
        case Change => b == cycle
        case DeleteFirst => a.pattern == 0 && b == cycle
        case _ => false)
  }

  predicate Path(cs: seq<Cmd>, path: seq<State>) {
    forall i :: 0 <= i < |path| - 1 ==> Step(cs, path[i], path[i + 1])
  }

  predicate Walk(cs: seq<Cmd>, walk: seq<State>) {
    forall i :: 0 <= i < |walk| - 1 ==> Step(cs, walk[i], walk[i + 1]) || Reads(cs, walk[i], walk[i + 1])
  }

  ghost predicate Leads(cs: seq<Cmd>, walk: seq<State>, x: State) {
    walk != [] && walk[0] == START && walk[|walk| - 1] == x && Walk(cs, walk)
  }

  ghost predicate Reached(cs: seq<Cmd>, x: State) { exists walk :: Leads(cs, walk, x) }

  ghost predicate StepAt(cs: seq<Cmd>, run: nat -> State, i: nat) { Step(cs, run(i), run(i + 1)) }

  /** An infinite run that never reads a line. */
  ghost predicate Runs(cs: seq<Cmd>, run: nat -> State) { Reached(cs, run(0)) && forall i: nat :: StepAt(cs, run, i) }

  /** sed accepts the script, and from some point on it can run forever without reading a line. */
  ghost predicate Endless(cs: seq<Cmd>) { Resolved(cs) && exists run: nat -> State :: Runs(cs, run) }

  // ---- ways round

  /** `D` begins the script anew on what is left in the pattern space. */
  predicate Restarts(cs: seq<Cmd>, a: State, b: State) { a.pc < |cs| && cs[a.pc].verb.DeleteFirst? && b.pc == 0 }

  predicate Alike(a: State, b: State) { a.pc == b.pc && a.flag == b.flag }

  predicate Below(a: State, b: State) { Alike(a, b) && a.pattern <= b.pattern && a.hold <= b.hold }

  ghost predicate Restartless(cs: seq<Cmd>, path: seq<State>) {
    forall k :: 0 <= k < |path| - 1 ==> !Restarts(cs, path[k], path[k + 1])
  }

  /** Round without a restart: whatever the two spaces hold does not matter. */
  ghost predicate Circle(cs: seq<Cmd>, path: seq<State>) {
    && 1 < |path| <= 2 * |cs| + 1 && Path(cs, path) && Reached(cs, path[0])
    && Alike(path[0], path[|path| - 1]) && Restartless(cs, path)
  }

  /** Round with restarts, the two spaces at the end holding no fewer newlines than at the beginning. */
  ghost predicate Pump(cs: seq<Cmd>, path: seq<State>) {
    && 1 < |path| && Path(cs, path) && Reached(cs, path[0])
    && Below(path[0], path[|path| - 1]) && !Restartless(cs, path)
  }

  ghost predicate Round(cs: seq<Cmd>, path: seq<State>) { Circle(cs, path) || Pump(cs, path) }

  // ---- parts of paths

  lemma {:induction false} Part(cs: seq<Cmd>, p: seq<State>, lo: nat, hi: nat)
    requires Path(cs, p) && lo <= hi <= |p|
    ensures Path(cs, p[lo..hi])
    ensures Restartless(cs, p) ==> Restartless(cs, p[lo..hi])
  {
    hide Step, Restarts;
    var r := p[lo..hi];
    forall k | 0 <= k < |r| - 1
      ensures Step(cs, r[k], r[k + 1]) && (Restartless(cs, p) ==> !Restarts(cs, r[k], r[k + 1]))
    {
      assert Step(cs, p[lo + k], p[lo + k + 1]);
      assert Restartless(cs, p) ==> !Restarts(cs, p[lo + k], p[lo + k + 1]);
    }
  }

  /** Once reached, the states of a path are reached. */
  lemma {:induction false} ReachedOn(cs: seq<Cmd>, path: seq<State>, k: nat)
    requires Path(cs, path) && k < |path| && Reached(cs, path[0])
    ensures Reached(cs, path[k])
    decreases k
  {
    if k > 0 {
      ReachedOn(cs, path, k - 1);
      assert Step(cs, path[k - 1], path[k - 1 + 1]);
      ReachedStep(cs, path[k - 1], path[k]);
    }
  }

  lemma {:induction false} ReachedStep(cs: seq<Cmd>, x: State, y: State)
    requires Reached(cs, x) && (Step(cs, x, y) || Reads(cs, x, y))
    ensures Reached(cs, y)
  {
    hide Step, Reads;
    var walk :| Leads(cs, walk, x);
    var more := walk + [y];
    forall i | 0 <= i < |more| - 1 ensures Step(cs, more[i], more[i + 1]) || Reads(cs, more[i], more[i + 1]) {
      if i < |walk| - 1 { assert Step(cs, walk[i], walk[i + 1]) || Reads(cs, walk[i], walk[i + 1]); }
    }
    assert Leads(cs, more, y);
  }

  lemma {:induction false} StartReached(cs: seq<Cmd>)
    ensures Reached(cs, START)
  {
    assert Leads(cs, [START], START);
  }

  // ---- a way round can be taken again and again

  /** The step from a to b, made from a' instead. */
  function Again(cs: seq<Cmd>, a: State, b: State, a': State): State
    requires Step(cs, a, b)
  {
    if Passes(cs, a, b) then a'.(pc := b.pc)
    else
      match cs[a.pc].verb
      case Substitute(grows) =>
        if b == a.(pc := a.pc + 1) then a'.(pc := b.pc)
        else
          a'.(pc := b.pc, flag := true,
              pattern := if grows || b.pattern <= a'.pattern then b.pattern else a'.pattern)
      case Translate(_) =>
        if b == a.(pc := a.pc + 1) then a'.(pc := b.pc) else a'.(pc := b.pc, pattern := b.pattern)
      case Get => a'.(pc := b.pc, pattern := a'.hold)
      case GetAppend => a'.(pc := b.pc, pattern := a'.pattern + 1 + a'.hold)
      case Hold => a'.(pc := b.pc, hold := a'.pattern)
      case HoldAppend => a'.(pc := b.pc, hold := a'.hold + 1 + a'.pattern)
      case Exchange => a'.(pc := b.pc, pattern := a'.hold, hold := a'.pattern)
      case DeleteFirst => a'.(pc := b.pc, pattern := if a'.pattern > 0 then a'.pattern - 1 else 0)
      case _ => a'.(pc := b.pc, flag := b.flag)
  }

  /** It is a step there too if no restart is made, or there are no fewer newlines. */
  lemma {:induction false} StepAgain(cs: seq<Cmd>, a: State, b: State, a': State)
    requires Step(cs, a, b) && Alike(a, a')
    ensures !Restarts(cs, a, b) || Below(a, a') ==> Step(cs, a', Again(cs, a, b, a'))
    ensures Alike(b, Again(cs, a, b, a')) && (Below(a, a') ==> Below(b, Again(cs, a, b, a')))
  {
    hide BlockEnd, Target;
  }

  /** Where a run round and round stands: at which state of the round, and in which state. */
  datatype Lap = Lap(k: nat, x: State)

  ghost predicate OnLap(cs: seq<Cmd>, round: seq<State>, l: Lap) {
    l.k < |round| - 1 && Alike(round[l.k], l.x) && (Pump(cs, round) ==> Below(round[l.k], l.x))
  }

  ghost function NextLap(cs: seq<Cmd>, round: seq<State>, l: Lap): (m: Lap)
    requires Round(cs, round) && OnLap(cs, round, l)
    ensures OnLap(cs, round, m) && Step(cs, l.x, m.x)
  {
    assert Step(cs, round[l.k], round[l.k + 1]);
    assert Circle(cs, round) ==> !Restarts(cs, round[l.k], round[l.k + 1]);
    StepAgain(cs, round[l.k], round[l.k + 1], l.x);
    hide Step, Again, Restarts;
    var x := Again(cs, round[l.k], round[l.k + 1], l.x);
    Lap(if l.k + 1 < |round| - 1 then l.k + 1 else 0, x)
  }

  ghost function LapAt(cs: seq<Cmd>, round: seq<State>, i: nat): (l: Lap)
    requires Round(cs, round)
    ensures OnLap(cs, round, l)
  {
    if i == 0 then Lap(0, round[0]) else NextLap(cs, round, LapAt(cs, round, i - 1))
  }

  lemma {:induction false} RoundIsEndless(cs: seq<Cmd>, round: seq<State>)
    requires Resolved(cs) && Round(cs, round)
    ensures Endless(cs)
  {
    hide Step, Resolved, NextLap;
    var run := (i: nat) => LapAt(cs, round, i).x;
    forall i: nat ensures StepAt(cs, run, i) {
      assert LapAt(cs, round, i + 1) == NextLap(cs, round, LapAt(cs, round, i));
    }
    assert Runs(cs, run);
  }

  // ---- an endless run goes round

  function Code(x: State): nat { 2 * x.pc + if x.flag then 1 else 0 }

  /** A long path visits some place twice, soon. */
  lemma {:induction false} Revisits(cs: seq<Cmd>, path: seq<State>) returns (a: nat, b: nat)
    requires Path(cs, path) && 2 * |cs| + 1 < |path|
    ensures a < b < 2 * |cs| + 1 && Alike(path[a], path[b])
  {
    var n := 2 * |cs| + 1;
    var l: seq<int> := seq(n, k requires 0 <= k < |path| => Code(path[k]));
    forall k | 0 <= k < n ensures 0 <= l[k] < 2 * |cs| { StepsWithin(cs, path, k); }
    hide Path;
    if forall x, y :: 0 <= x < y < |l| ==> l[x] != l[y] { Pigeonhole(l, 2 * |cs|); }
    a, b :| 0 <= a < b < |l| && l[a] == l[b];
  }

  lemma {:induction false} StepsWithin(cs: seq<Cmd>, path: seq<State>, k: nat)
    requires Path(cs, path) && k + 1 < |path|
    ensures path[k].pc < |cs|
  {
    assert Step(cs, path[k], path[k + 1]);
  }

  lemma {:induction false} ShortCircle(cs: seq<Cmd>, path: seq<State>) returns (round: seq<State>)
    requires Path(cs, path) && Restartless(cs, path) && 2 * |cs| + 1 < |path| && Reached(cs, path[0])
    ensures Circle(cs, round)
  {
    hide Step, Reached, Restarts;
    var a, b := Revisits(cs, path);
    Part(cs, path, a, b + 1);
    ReachedOn(cs, path, a);
    round := path[a..b + 1];
  }

  /** The stretch of a run from i to j. */
  lemma {:induction false} Stretch(cs: seq<Cmd>, run: nat -> State, i: nat, j: nat) returns (path: seq<State>)
    requires Runs(cs, run) && i <= j
    ensures |path| == j - i + 1 && Path(cs, path) && Reached(cs, path[0]) && path[0] == run(i) && path[j - i] == run(j)
  {
    hide Step, Reached;
    var all := seq(j + 1, (k: nat) => run(k));
    forall k | 0 <= k < |all| - 1 ensures Step(cs, all[k], all[k + 1]) { assert StepAt(cs, run, k); }
    Part(cs, all, i, j + 1);
    ReachedOn(cs, all, i);
    path := all[i..j + 1];
  }

  lemma {:induction false} RunPlaces(cs: seq<Cmd>, run: nat -> State, k: nat)
    requires Runs(cs, run)
    ensures run(k).pc < |cs|
  {
    assert StepAt(cs, run, k);
  }

  /** It comes back to a place with no fewer newlines. */
  lemma {:induction false} RunComesBack(cs: seq<Cmd>, run: nat -> State) returns (i: nat, j: nat)
    requires Runs(cs, run)
    ensures i < j && Below(run(i), run(j))
  {
    var place := (k: nat) => Code(run(k));
    forall k: nat ensures place(k) < 2 * |cs| { RunPlaces(cs, run, k); }
    i, j := ComesBack(place, 2 * |cs|, (k: nat) => run(k).pattern, (k: nat) => run(k).hold);
    assert place(i) == place(j);
  }

  lemma {:induction false} RunHasRound(cs: seq<Cmd>, run: nat -> State) returns (round: seq<State>)
    requires Runs(cs, run)
    ensures Round(cs, round)
  {
    hide Step, Reached, Path, Restarts, Runs;
    var i, j := RunComesBack(cs, run);
    round := Stretch(cs, run, i, j);
    if Restartless(cs, round) && 2 * |cs| + 1 < |round| { round := ShortCircle(cs, round); }
  }

  lemma {:induction false} EndlessHasRound(cs: seq<Cmd>) returns (round: seq<State>)
    requires Endless(cs)
    ensures Round(cs, round)
  {
    var run: nat -> State :| Runs(cs, run);
    round := RunHasRound(cs, run);
  }

  /** A script can run forever exactly when it has a way round. */
  lemma {:induction false} EndlessExactly(cs: seq<Cmd>)
    ensures Endless(cs) <==> Resolved(cs) && exists round :: Round(cs, round)
  {
    if Endless(cs) { var round := EndlessHasRound(cs); }
    if Resolved(cs) && exists round :: Round(cs, round) {
      var round :| Round(cs, round);
      RoundIsEndless(cs, round);
    }
  }

  // ---- restarts need text

  /** Commands that can leave more newlines in the pattern space than there were. */
  predicate Refills(v: Verb) {
    v.Get? || v.GetAppend? || v.Exchange? || ((v.Substitute? || v.Translate?) && v.grows)
  }

  predicate Fills(cs: seq<Cmd>, x: State) { x.pc < |cs| && Refills(cs[x.pc].verb) }

  lemma {:induction false} PatternShrinks(cs: seq<Cmd>, path: seq<State>)
    requires Path(cs, path) && path != [] && forall k :: 0 <= k < |path| - 1 ==> !Fills(cs, path[k])
    ensures path[|path| - 1].pattern <= path[0].pattern
    ensures !Restartless(cs, path) ==> path[|path| - 1].pattern < path[0].pattern
    decreases |path|
  {
    if 1 < |path| {
      var rest := path[1..];
      StepShrinks(cs, path[0], path[1]) by { assert Step(cs, path[0], path[0 + 1]); }
      Part(cs, path, 1, |path|);
      hide Step, Fills, Restarts;
      forall k | 0 <= k < |rest| - 1 ensures !Fills(cs, rest[k]) { assert !Fills(cs, path[k + 1]); }
      PatternShrinks(cs, rest);
      if !Restarts(cs, path[0], path[1]) && Restartless(cs, rest) {
        forall k | 0 <= k < |path| - 1 ensures !Restarts(cs, path[k], path[k + 1]) {
          if k > 0 { assert !Restarts(cs, rest[k - 1], rest[k - 1 + 1]); }
        }
      }
    }
  }

  lemma {:induction false} StepShrinks(cs: seq<Cmd>, a: State, b: State)
    requires Step(cs, a, b) && !Fills(cs, a)
    ensures b.pattern <= a.pattern && (Restarts(cs, a, b) ==> b.pattern < a.pattern)
  {
  }

  /** Restarts go on forever only where the pattern space is filled up again. */
  lemma {:induction false} PumpRefills(cs: seq<Cmd>, path: seq<State>)
    requires Pump(cs, path)
    ensures exists k :: 0 <= k < |path| - 1 && Fills(cs, path[k])
  {
    hide Step, Restarts, Fills, Reached;
    if forall k :: 0 <= k < |path| - 1 ==> !Fills(cs, path[k]) { PatternShrinks(cs, path); }
  }
}
