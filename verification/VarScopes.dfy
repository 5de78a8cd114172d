/**
  The variable scopes of the type environment (crates/scar/src/env.rs).

  The environment keeps one mutable variable map and a stack of undo frames, each of which logs the
  value a variable had before the frame first saw it change. An ordinary frame logs the bindings made
  while it is the innermost one and lets a normalisation leak out; an isolated frame logs every write
  made while it is open and lets nothing out.

  The specification below has no undo log at all: every open scope carries a full copy of what its
  closing must restore. The class `TypeEnv` is proved to follow it along every run.
 */
module VarScopes {
  import opened Wrappers

  /** The calls that touch the variable map, the concrete-error map or the scope stack. */
  datatype Op<T> =
    | Bind(id: nat, ty: T)
    | Normalize(id: nat, ty: T)
    | RecordErrors(errors: map<nat, string>)
    | Push(isolated: bool)
    | Pop

  // ---------- Specification: a stack of full snapshots ----------

  /** An open scope: its kind and the variables bound directly in it. */
  datatype Context = Context(isolated: bool, bound: set<nat>)

  /** The contents that the closing of a scope restores. */
  datatype Snapshot<T> = Snapshot(vars: map<nat, T>, errors: map<nat, string>)

  /** The current contents, the open scopes and the snapshot each of them closes to. */
  datatype Spec<T> = Spec(now: Snapshot<T>, open: seq<Context>, saved: seq<Snapshot<T>>)

  /** A normalisation of `id` leaks through scopes that are all ordinary and do not bind `id`. */
  predicate Leaks(open: seq<Context>, id: nat) {
    forall c | c in open :: !c.isolated && id !in c.bound
  }

  /** The open scopes after a call; binding adds to the innermost one. */
  function OpenStep<T>(open: seq<Context>, op: Op<T>): seq<Context> {
    var n := |open|;
    match op
    case Bind(id, _) => if n == 0 then [] else open[n - 1 := open[n - 1].(bound := open[n - 1].bound + {id})]
    case Push(isolated) => open + [Context(isolated, {})]
    case Pop => if n == 0 then [] else open[..n - 1]
    case _ => open
  }

  function SpecStep<T>(s: Spec<T>, op: Op<T>): Spec<T>
    requires |s.saved| == |s.open|
  {
    var n := |s.saved|;
    var open := OpenStep(s.open, op);
    match op
    case Bind(id, ty) => Spec(s.now.(vars := s.now.vars[id := ty]), open, s.saved)
    case Normalize(id, ty) => Spec(s.now.(vars := s.now.vars[id := ty]), open, LeakInto(s.open, s.saved, id, ty))
    case RecordErrors(errors) => Spec(s.now.(errors := errors), open, s.saved)
    case Push(_) => Spec(s.now, open, s.saved + [s.now])
    case Pop => if n == 0 then s else Spec(s.saved[n - 1], open, s.saved[..n - 1])
  }

  /** The snapshots after a normalisation: it reaches those it leaks to from the innermost scope. */
  function LeakInto<T>(open: seq<Context>, saved: seq<Snapshot<T>>, id: nat, ty: T): (r: seq<Snapshot<T>>)
    requires |saved| == |open|
    ensures |r| == |saved|
    ensures forall i | 0 <= i < |r| ::
              r[i] == if Leaks(open[i..], id) then saved[i].(vars := saved[i].vars[id := ty]) else saved[i]
  {
    seq(|saved|, i requires 0 <= i < |saved| =>
      if Leaks(open[i..], id) then saved[i].(vars := saved[i].vars[id := ty]) else saved[i])
  }

  function SpecRun<T>(trace: seq<Op<T>>): (s: Spec<T>)
    ensures |s.saved| == |s.open|
  {
    if trace == [] then Spec(Snapshot(map[], map[]), [], [])
    else SpecStep(SpecRun(trace[..|trace| - 1]), trace[|trace| - 1])
  }

  // ---------- What a whole scope does, read off its body alone ----------

  /** The scopes open after `body`, starting with the scope the body belongs to. */
  function Open<T>(isolated: bool, body: seq<Op<T>>): seq<Context> {
    if body == [] then [Context(isolated, {})]
    else OpenStep(Open(isolated, body[..|body| - 1]), body[|body| - 1])
  }

  /** The body never closes the scope it belongs to. */
  predicate Inside<T>(body: seq<Op<T>>) {
    forall k | 0 <= k <= |body| :: Open(false, body[..k]) != []
  }

  /** The body also closes every scope it opens. */
  predicate Balanced<T>(body: seq<Op<T>>) {
    Inside(body) && |Open(false, body)| == 1
  }

  /** How many more scopes the calls open than they close. */
  function Depth<T>(body: seq<Op<T>>): int {
    if body == [] then 0
    else Depth(body[..|body| - 1]) + (match body[|body| - 1] case Push(_) => 1 case Pop => -1 case _ => 0)
  }

  /** No prefix closes more scopes than it opens. */
  predicate NeverNegative<T>(body: seq<Op<T>>) {
    forall k | 0 <= k <= |body| :: Depth(body[..k]) >= 0
  }

  lemma InsideSnoc<T>(body: seq<Op<T>>)
    requires body != []
    ensures Inside(body) <==> Inside(body[..|body| - 1]) && Open(false, body) != []
  {
    hide Open;
    var n, shorter := |body|, body[..|body| - 1];
    assert body[..n] == body;
    forall k | 0 <= k < n ensures shorter[..k] == body[..k] {}
    if Inside(shorter) && Open(false, body) != [] {
      forall k | 0 <= k <= n ensures Open(false, body[..k]) != [] {
        if k < n { assert Open(false, shorter[..k]) != []; }
      }
    }
  }

  lemma NeverNegativeSnoc<T>(body: seq<Op<T>>)
    requires body != []
    ensures NeverNegative(body) <==> NeverNegative(body[..|body| - 1]) && Depth(body) >= 0
  {
    hide Depth;
    var n, shorter := |body|, body[..|body| - 1];
    assert body[..n] == body;
    forall k | 0 <= k < n ensures shorter[..k] == body[..k] {}
    if NeverNegative(shorter) && Depth(body) >= 0 {
      forall k | 0 <= k <= n ensures Depth(body[..k]) >= 0 {
        if k < n { assert Depth(shorter[..k]) >= 0; }
      }
    }
  }

  lemma {:induction false} InsideExactly<T>(body: seq<Op<T>>)
    ensures Inside(body) <==> NeverNegative(body)
    ensures Inside(body) ==> |Open(false, body)| == 1 + Depth(body)
  {
    if body != [] {
      InsideExactly(body[..|body| - 1]);
      InsideSnoc(body);
      NeverNegativeSnoc(body);
      hide Inside, NeverNegative;
    }
  }

  /** The bodies considered are all sequences of calls that open and close scopes in pairs. */
  lemma BalancedExactly<T>(body: seq<Op<T>>)
    ensures Balanced(body) <==> Depth(body) == 0 && NeverNegative(body)
  {
    InsideExactly(body);
  }

  /**
    The normalisations of the body that outlive the scope: those made while every scope from this
    one up is ordinary and none of them has bound the same variable.
   */
  function Surviving<T>(isolated: bool, body: seq<Op<T>>): seq<(nat, T)> {
    if body == [] then [] else
    var before := body[..|body| - 1];
    Surviving(isolated, before) + Survivor(Open(isolated, before), body[|body| - 1])
  }

  function Survivor<T>(open: seq<Context>, op: Op<T>): seq<(nat, T)> {
    if op.Normalize? && Leaks(open, op.id) then [(op.id, op.ty)] else []
  }

  function Replay<T>(vars: map<nat, T>, writes: seq<(nat, T)>): map<nat, T> {
    if writes == [] then vars else
    Replay(vars, writes[..|writes| - 1])[writes[|writes| - 1].0 := writes[|writes| - 1].1]
  }

  /** The specification state in the middle of a scope. */
  ghost predicate MidScope<T>(before: Spec<T>, open: seq<Context>, kept: seq<(nat, T)>, s: Spec<T>) {
    && s.open == before.open + open
    && |s.saved| == |s.open|
    && |before.saved| == |before.open|
    && (open != [] ==> s.saved[|before.open|] == Snapshot(Replay(before.now.vars, kept), before.now.errors))
  }

  lemma OpenDepth<T>(a: bool, b: bool, body: seq<Op<T>>)
    ensures |Open(a, body)| == |Open(b, body)|
  {}

  lemma InsidePrefix<T>(isolated: bool, body: seq<Op<T>>)
    requires Inside(body) && body != []
    ensures Inside(body[..|body| - 1]) && Open(isolated, body[..|body| - 1]) != [] && Open(isolated, body) != []
  {
    var shorter := body[..|body| - 1];
    forall k | 0 <= k <= |shorter| ensures Open(false, shorter[..k]) != [] { assert shorter[..k] == body[..k]; }
    assert body[..|body|] == body;
    OpenDepth(false, isolated, shorter);
    OpenDepth(false, isolated, body);
  }

  lemma RunSnoc<T>(trace: seq<Op<T>>, op: Op<T>)
    ensures SpecRun(trace + [op]) == SpecStep(SpecRun(trace), op)
  {
    assert (trace + [op])[..|trace|] == trace;
  }

  lemma RunOpensScope<T>(pre: seq<Op<T>>, isolated: bool)
    ensures MidScope(SpecRun(pre), [Context(isolated, {})], [], SpecRun(pre + [Push(isolated)]))
  {
    RunSnoc(pre, Push(isolated));
  }

  lemma {:induction false} RunInsideScope<T>(pre: seq<Op<T>>, isolated: bool, body: seq<Op<T>>)
    requires Inside(body)
    ensures MidScope(SpecRun(pre), Open(isolated, body), Surviving(isolated, body),
                     SpecRun(pre + [Push(isolated)] + body))
  {
    hide MidScope, SpecStep, SpecRun, OpenStep, Survivor, Inside;
    var entered := pre + [Push(isolated)];
    if body == [] {
      assert entered + body == entered;
      RunOpensScope(pre, isolated);
    } else {
      var shorter, op := body[..|body| - 1], body[|body| - 1];
      assert entered + body == entered + shorter + [op];
      RunSnoc(entered + shorter, op);
      InsidePrefix(isolated, body);
      RunInsideScope(pre, isolated, shorter);
      StepInsideScope(SpecRun(pre), Open(isolated, shorter), Surviving(isolated, shorter),
                      SpecRun(entered + shorter), op);
    }
  }

  lemma {:induction false} StepInsideScope<T>(
    before: Spec<T>, open: seq<Context>, kept: seq<(nat, T)>, s: Spec<T>, op: Op<T>)
    requires open != [] && OpenStep(open, op) != [] && MidScope(before, open, kept, s)
    ensures MidScope(before, OpenStep(open, op), kept + Survivor(open, op), SpecStep(s, op))
  {
    StepOpen(before.open, open, op);
    assert s.open[|before.open|..] == open;
    if op.Normalize? {
      hide OpenStep;
      ReplayNext(before.now.vars, kept, op.id, op.ty);
      assert kept + [] == kept;
    } else {
      assert kept + Survivor(open, op) == kept;
    }
  }

  lemma StepOpen<T>(below: seq<Context>, open: seq<Context>, op: Op<T>)
    requires open != []
    ensures OpenStep(below + open, op) == below + OpenStep(open, op)
  {}

  lemma ReplayNext<T>(vars: map<nat, T>, writes: seq<(nat, T)>, id: nat, ty: T)
    ensures Replay(vars, writes + [(id, ty)]) == Replay(vars, writes)[id := ty]
  {
    assert (writes + [(id, ty)])[..|writes|] == writes;
  }

  lemma CloseScope<T>(before: Spec<T>, open: seq<Context>, kept: seq<(nat, T)>, s: Spec<T>)
    requires |open| == 1 && MidScope(before, open, kept, s)
    ensures SpecStep(s, Pop).now == Snapshot(Replay(before.now.vars, kept), before.now.errors)
    ensures SpecStep(s, Pop).open == before.open
  {}

  /** Closing any scope leaves the push-time map with exactly the surviving normalisations replayed. */
  lemma ScopeReplaysSurvivors<T>(pre: seq<Op<T>>, isolated: bool, body: seq<Op<T>>)
    requires Balanced(body)
    ensures var before, after := SpecRun(pre), SpecRun(pre + [Push(isolated)] + body + [Pop]);
            && after.now.vars == Replay(before.now.vars, Surviving(isolated, body))
            && after.now.errors == before.now.errors
            && after.open == before.open
  {
    hide MidScope, SpecStep, SpecRun, Open, Inside, Surviving;
    RunInsideScope(pre, isolated, body);
    OpenDepth(false, isolated, body);
    RunSnoc(pre + [Push(isolated)] + body, Pop);
    CloseScope(SpecRun(pre), Open(isolated, body), Surviving(isolated, body), SpecRun(pre + [Push(isolated)] + body));
  }

  lemma {:induction false} NothingSurvivesIsolation<T>(body: seq<Op<T>>)
    requires Inside(body)
    ensures Surviving(true, body) == [] && Open(true, body) != [] && Open(true, body)[0].isolated
  {
    if body != [] {
      var shorter := body[..|body| - 1];
      InsidePrefix(true, body);
      NothingSurvivesIsolation(shorter);
      assert Open(true, shorter)[0] in Open(true, shorter);
    }
  }

  /** An isolated scope restores both maps exactly, whatever its body nests, binds or normalises. */
  lemma IsolatedScopeRestoresExactly<T>(pre: seq<Op<T>>, body: seq<Op<T>>)
    requires Balanced(body)
    ensures var before, after := SpecRun(pre), SpecRun(pre + [Push(true)] + body + [Pop]);
            after.now == before.now
  {
    ScopeReplaysSurvivors(pre, true, body);
    NothingSurvivesIsolation(body);
  }

  /** Without normalisations an ordinary scope restores both maps exactly too. */
  lemma ScopeWithoutNormalizeRestoresExactly<T>(pre: seq<Op<T>>, isolated: bool, body: seq<Op<T>>)
    requires Balanced(body)
    requires forall op | op in body :: !op.Normalize?
    ensures var before, after := SpecRun(pre), SpecRun(pre + [Push(isolated)] + body + [Pop]);
            after.now == before.now
  {
    ScopeReplaysSurvivors(pre, isolated, body);
    NoNormalizeNoSurvivor(isolated, body);
  }

  lemma NoNormalizeNoSurvivor<T>(isolated: bool, body: seq<Op<T>>)
    requires forall op | op in body :: !op.Normalize?
    ensures Surviving(isolated, body) == []
  {}

  // ---------- The undo log ----------

  /** A first-write undo frame. */
  datatype Frame<T> = Frame(touched: set<nat>, undo: seq<(nat, Option<T>)>, errorsBefore: map<nat, string>)

  /** The value the log holds for `id`, if it holds one. */
  function Logged<T>(undo: seq<(nat, Option<T>)>, id: nat): Option<Option<T>> {
    if undo == [] then None
    else if undo[0].0 == id then Some(undo[0].1)
    else Logged(undo[1..], id)
  }

  /** One log entry per touched variable. */
  ghost predicate FrameValid<T>(f: Frame<T>) {
    && (forall i, j | 0 <= i < j < |f.undo| :: f.undo[i].0 != f.undo[j].0)
    && (forall id: nat :: id in f.touched <==> Logged(f.undo, id).Some?)
  }

  /** What `id` holds once a log has been undone, last entry first. */
  function RolledBack<T>(undo: seq<(nat, Option<T>)>, vars: map<nat, T>, id: nat): Option<T> {
    match Logged(undo, id)
    case Some(prior) => prior
    case None => Get(vars, id)
  }

  /** What `id` holds once the frames from `i` up have been closed, innermost first. */
  function Restored<T>(frames: seq<Frame<T>>, vars: map<nat, T>, i: nat, id: nat): Option<T>
    requires i <= |frames|
    decreases |frames| - i
  {
    if i == |frames| then Get(vars, id)
    else match Logged(frames[i].undo, id)
      case Some(prior) => prior
      case None => Restored(frames, vars, i + 1, id)
  }

  /** `isolated` lists, in order, the positions of the isolated scopes. */
  ghost predicate ListsIsolated(isolated: seq<nat>, open: seq<Context>) {
    && (forall p, q | 0 <= p < q < |isolated| :: isolated[p] < isolated[q])
    && (forall p | 0 <= p < |isolated| :: isolated[p] < |open|)
    && (forall i | 0 <= i < |open| :: open[i].isolated <==> i in isolated)
  }

  /** The log of every isolated frame covers the log of every frame above it. */
  ghost predicate Covers<T>(frames: seq<Frame<T>>, isolated: seq<nat>) {
    forall i, j | 0 <= i < j < |frames| && i in isolated :: frames[j].touched <= frames[i].touched
  }

  /** Every frame is well formed and carries the error map its closing restores. */
  ghost predicate FramesValid<T>(frames: seq<Frame<T>>, saved: seq<Snapshot<T>>) {
    && |frames| == |saved|
    && (forall i | 0 <= i < |frames| :: FrameValid(frames[i]) && frames[i].errorsBefore == saved[i].errors)
  }

  /** An ordinary frame has logged exactly the variables bound directly in its scope. */
  ghost predicate LogsBound<T>(frames: seq<Frame<T>>, open: seq<Context>) {
    && |frames| == |open|
    && (forall i | 0 <= i < |frames| && !open[i].isolated :: frames[i].touched == open[i].bound)
  }

  /** Closing the frames from any position up gives that position's snapshot. */
  ghost predicate Restores<T>(frames: seq<Frame<T>>, vars: map<nat, T>, saved: seq<Snapshot<T>>) {
    && |frames| == |saved|
    && (forall i, id: nat | 0 <= i < |frames| :: Restored(frames, vars, i, id) == Get(saved[i].vars, id))
  }

  /** The undo log represents the stack of snapshots. */
  ghost predicate Represents<T>(frames: seq<Frame<T>>, isolated: seq<nat>, s: Spec<T>) {
    && ListsIsolated(isolated, s.open)
    && Covers(frames, isolated)
    && FramesValid(frames, s.saved)
    && LogsBound(frames, s.open)
    && Restores(frames, s.now.vars, s.saved)
  }

  /** A frame after a write to `id` has been logged, given the value before the write. */
  function Record<T>(f: Frame<T>, id: nat, prior: Option<T>): Frame<T> {
    if id in f.touched then f else f.(touched := f.touched + {id}, undo := f.undo + [(id, prior)])
  }

  lemma {:induction false} LoggedAppend<T>(undo: seq<(nat, Option<T>)>, id: nat, prior: Option<T>, q: nat)
    ensures Logged(undo + [(id, prior)], q)
         == if Logged(undo, q).Some? then Logged(undo, q) else if q == id then Some(prior) else None
  {
    if undo != [] {
      assert (undo + [(id, prior)])[1..] == undo[1..] + [(id, prior)];
      LoggedAppend(undo[1..], id, prior, q);
    } else {
      assert (undo + [(id, prior)])[1..] == [];
    }
  }

  lemma {:induction false} LoggedAt<T>(undo: seq<(nat, Option<T>)>, i: nat)
    requires i < |undo|
    ensures Logged(undo, undo[i].0).Some?
  {
    if i > 0 { LoggedAt(undo[1..], i - 1); }
  }

  lemma LoggedRecord<T>(f: Frame<T>, id: nat, prior: Option<T>, q: nat)
    requires FrameValid(f)
    ensures Logged(Record(f, id, prior).undo, q)
         == if q == id && id !in f.touched then Some(prior) else Logged(f.undo, q)
  {
    LoggedAppend(f.undo, id, prior, q);
  }

  lemma RecordKeepsFrame<T>(f: Frame<T>, id: nat, prior: Option<T>)
    requires FrameValid(f)
    ensures FrameValid(Record(f, id, prior))
  {
    forall q: nat ensures Logged(f.undo + [(id, prior)], q)
         == if Logged(f.undo, q).Some? then Logged(f.undo, q) else if q == id then Some(prior) else None
    { LoggedAppend(f.undo, id, prior, q); }
    forall i | 0 <= i < |f.undo| ensures f.undo[i].0 in f.touched { LoggedAt(f.undo, i); }
  }

  /** The frames after a write to `id` has been logged in those of `marks`. */
  function RecordIn<T>(frames: seq<Frame<T>>, marks: set<nat>, id: nat, prior: Option<T>): (after: seq<Frame<T>>)
    ensures |after| == |frames|
  {
    seq(|frames|, i requires 0 <= i < |frames| => if i in marks then Record(frames[i], id, prior) else frames[i])
  }

  /** A marked frame that has not logged `id` lies below no frame that has. */
  ghost predicate FirstWrites<T>(frames: seq<Frame<T>>, marks: set<nat>, id: nat) {
    forall i, j | 0 <= i < j < |frames| && i in marks && id in frames[j].touched :: id in frames[i].touched
  }

  lemma {:induction false} UnloggedAbove<T>(frames: seq<Frame<T>>, vars: map<nat, T>, i: nat, id: nat)
    requires i <= |frames| && (forall k | 0 <= k < |frames| :: FrameValid(frames[k]))
    requires forall k | i <= k < |frames| :: id !in frames[k].touched
    ensures Restored(frames, vars, i, id) == Get(vars, id)
    decreases |frames| - i
  {
    if i < |frames| { UnloggedAbove(frames, vars, i + 1, id); }
  }

  /** A write leaves the other variables alone. */
  lemma {:induction false} OtherVariables<T>(
    frames: seq<Frame<T>>, marks: set<nat>, vars: map<nat, T>, id: nat, ty: T, i: nat, q: nat)
    requires i <= |frames| && (forall k | 0 <= k < |frames| :: FrameValid(frames[k]))
    requires q != id
    ensures Restored(RecordIn(frames, marks, id, Get(vars, id)), vars[id := ty], i, q) == Restored(frames, vars, i, q)
    decreases |frames| - i
  {
    if i < |frames| {
      OtherVariables(frames, marks, vars, id, ty, i + 1, q);
      LoggedRecord(frames[i], id, Get(vars, id), q);
    }
  }

  /** A write is invisible below a frame that has logged it. */
  lemma {:induction false} ShieldedWrite<T>(
    frames: seq<Frame<T>>, marks: set<nat>, vars: map<nat, T>, id: nat, ty: T, i: nat, k: nat)
    requires i <= k < |frames| && (forall k | 0 <= k < |frames| :: FrameValid(frames[k]))
    requires FirstWrites(frames, marks, id) && id in RecordIn(frames, marks, id, Get(vars, id))[k].touched
    ensures Restored(RecordIn(frames, marks, id, Get(vars, id)), vars[id := ty], i, id) == Restored(frames, vars, i, id)
    decreases |frames| - i
  {
    LoggedRecord(frames[i], id, Get(vars, id), id);
    if id !in frames[i].touched {
      if i in marks {
        UnloggedAbove(frames, vars, i + 1, id);
      } else {
        ShieldedWrite(frames, marks, vars, id, ty, i + 1, k);
      }
    }
  }

  /** A write that no frame has logged stays. */
  lemma ExposedWrite<T>(frames: seq<Frame<T>>, vars: map<nat, T>, id: nat, ty: T, i: nat)
    requires i <= |frames| && (forall k | 0 <= k < |frames| :: FrameValid(frames[k]))
    requires forall k | i <= k < |frames| :: id !in frames[k].touched
    ensures Restored(frames, vars[id := ty], i, id) == Some(ty)
  {
    UnloggedAbove(frames, vars[id := ty], i, id);
  }

  // ---------- Every call keeps the representation ----------

  /** The frames a call logs its write in: the isolated ones and, for a binding, the innermost one. */
  function Marks(isolated: seq<nat>, n: nat, binding: bool): set<nat> {
    (set i | i in isolated) + (if binding && n > 0 then {n - 1} else {})
  }

  lemma LogInnermost<T>(frames: seq<Frame<T>>, isolated: seq<nat>, open: seq<Context>, id: nat, prior: Option<T>)
    requires ListsIsolated(isolated, open) && |open| == |frames|
    ensures var n, after := |frames|, RecordIn(frames, Marks(isolated, |frames|, false), id, prior);
            RecordIn(frames, Marks(isolated, n, true), id, prior) ==
            if n > 0 && !(|isolated| > 0 && isolated[|isolated| - 1] == n - 1)
            then after[n - 1 := Record(after[n - 1], id, prior)] else after
  {}

  lemma {:induction false} WriteKeepsValid<T>(
    frames: seq<Frame<T>>, saved: seq<Snapshot<T>>, marks: set<nat>, id: nat, prior: Option<T>)
    requires FramesValid(frames, saved)
    ensures FramesValid(RecordIn(frames, marks, id, prior), saved)
  {
    forall i | 0 <= i < |frames| ensures FrameValid(Record(frames[i], id, prior)) {
      RecordKeepsFrame(frames[i], id, prior);
    }
  }

  lemma {:induction false} WriteKeepsCovers<T>(
    frames: seq<Frame<T>>, isolated: seq<nat>, binding: bool, id: nat, prior: Option<T>)
    requires Covers(frames, isolated)
    ensures var marks := Marks(isolated, |frames|, binding);
            && FirstWrites(frames, marks, id) && Covers(RecordIn(frames, marks, id, prior), isolated)
            && (binding && frames != [] ==> |frames| - 1 in marks)
  {
    var marks := Marks(isolated, |frames|, binding);
    var after := RecordIn(frames, marks, id, prior);
    forall i, j | 0 <= i < j < |frames| && i in isolated ensures after[j].touched <= after[i].touched {
      assert frames[j].touched <= frames[i].touched && i in marks;
    }
  }

  /** A binding logged in the innermost frame changes no snapshot. */
  lemma {:induction false} BindRestores<T>(
    frames: seq<Frame<T>>, marks: set<nat>, vars: map<nat, T>, saved: seq<Snapshot<T>>, id: nat, ty: T)
    requires FramesValid(frames, saved) && Restores(frames, vars, saved) && FirstWrites(frames, marks, id)
    requires frames != [] ==> |frames| - 1 in marks
    ensures Restores(RecordIn(frames, marks, id, Get(vars, id)), vars[id := ty], saved)
  {
    hide Restored, FrameValid;
    var after := RecordIn(frames, marks, id, Get(vars, id));
    assert frames != [] ==> id in after[|frames| - 1].touched;
    forall i, q: nat | 0 <= i < |frames| ensures Restored(after, vars[id := ty], i, q) == Get(saved[i].vars, q) {
      if q == id {
        ShieldedWrite(frames, marks, vars, id, ty, i, |frames| - 1);
      } else {
        OtherVariables(frames, marks, vars, id, ty, i, q);
      }
    }
  }

  lemma {:induction false} BindLogsBound<T>(
    frames: seq<Frame<T>>, isolated: seq<nat>, open: seq<Context>, id: nat, ty: T, prior: Option<T>)
    requires ListsIsolated(isolated, open) && LogsBound(frames, open)
    ensures ListsIsolated(isolated, OpenStep(open, Bind(id, ty)))
    ensures LogsBound(RecordIn(frames, Marks(isolated, |frames|, true), id, prior), OpenStep(open, Bind(id, ty)))
  {}

  lemma {:induction false} BindKeepsRepresentation<T>(
    frames: seq<Frame<T>>, isolated: seq<nat>, s: Spec<T>, id: nat, ty: T)
    requires Represents(frames, isolated, s)
    ensures Represents(RecordIn(frames, Marks(isolated, |frames|, true), id, Get(s.now.vars, id)),
                       isolated, SpecStep(s, Bind(id, ty)))
  {
    hide Restores, LogsBound, FramesValid, Covers, ListsIsolated, RecordIn, Marks, OpenStep;
    WriteKeepsCovers(frames, isolated, true, id, Get(s.now.vars, id));
    WriteKeepsValid(frames, s.saved, Marks(isolated, |frames|, true), id, Get(s.now.vars, id));
    BindRestores(frames, Marks(isolated, |frames|, true), s.now.vars, s.saved, id, ty);
    BindLogsBound(frames, isolated, s.open, id, ty, Get(s.now.vars, id));
  }

  /** A normalisation reaches exactly the snapshots it leaks to. */
  lemma {:induction false} NormalizeRestores<T>(
    frames: seq<Frame<T>>, isolated: seq<nat>, s: Spec<T>, id: nat, ty: T)
    requires Represents(frames, isolated, s) && FirstWrites(frames, Marks(isolated, |frames|, false), id)
    requires FramesValid(RecordIn(frames, Marks(isolated, |frames|, false), id, Get(s.now.vars, id)), s.saved)
    ensures Restores(RecordIn(frames, Marks(isolated, |frames|, false), id, Get(s.now.vars, id)),
                     s.now.vars[id := ty], LeakInto(s.open, s.saved, id, ty))
  {
    var marks, vars := Marks(isolated, |frames|, false), s.now.vars;
    var after, saved := RecordIn(frames, marks, id, Get(vars, id)), LeakInto(s.open, s.saved, id, ty);
    forall i, q: nat | 0 <= i < |frames| ensures Restored(after, vars[id := ty], i, q) == Get(saved[i].vars, q) {
      LeaksUnlogged(frames, isolated, s, id, Get(vars, id), i);
      if q != id {
        OtherVariables(frames, marks, vars, id, ty, i, q);
      } else if Leaks(s.open[i..], id) {
        ExposedWrite(after, vars, id, ty, i);
      } else {
        var k :| i <= k < |after| && id in after[k].touched;
        ShieldedWrite(frames, marks, vars, id, ty, i, k);
      }
    }
  }

  lemma {:induction false} NormalizeKeepsRepresentation<T>(
    frames: seq<Frame<T>>, isolated: seq<nat>, s: Spec<T>, id: nat, ty: T)
    requires Represents(frames, isolated, s)
    ensures Represents(RecordIn(frames, Marks(isolated, |frames|, false), id, Get(s.now.vars, id)),
                       isolated, SpecStep(s, Normalize(id, ty)))
  {
    WriteKeepsCovers(frames, isolated, false, id, Get(s.now.vars, id));
    WriteKeepsValid(frames, s.saved, Marks(isolated, |frames|, false), id, Get(s.now.vars, id));
    NormalizeRestores(frames, isolated, s, id, ty);
  }

  /** What leaks is what no frame has logged once the isolated ones have. */
  lemma {:induction false} LeaksUnlogged<T>(
    frames: seq<Frame<T>>, isolated: seq<nat>, s: Spec<T>, id: nat, prior: Option<T>, i: nat)
    requires Represents(frames, isolated, s) && i < |frames|
    ensures var after := RecordIn(frames, Marks(isolated, |frames|, false), id, prior);
            Leaks(s.open[i..], id) <==> forall k | i <= k < |after| :: id !in after[k].touched
  {
    var after := RecordIn(frames, Marks(isolated, |frames|, false), id, prior);
    forall k | i <= k < |frames|
      ensures s.open[k] in s.open[i..]
      ensures id !in after[k].touched <==> !s.open[k].isolated && id !in s.open[k].bound
    { assert s.open[i..][k - i] == s.open[k]; }
  }

  lemma {:induction false} RestoredBelow<T>(
    frames: seq<Frame<T>>, vars: map<nat, T>, shorter: seq<Frame<T>>, vars': map<nat, T>, i: nat, id: nat)
    requires shorter <= frames && i <= |shorter|
    requires Get(vars', id) == Restored(frames, vars, |shorter|, id)
    ensures Restored(shorter, vars', i, id) == Restored(frames, vars, i, id)
    decreases |shorter| - i
  {
    if i < |shorter| { RestoredBelow(frames, vars, shorter, vars', i + 1, id); }
  }

  lemma {:induction false} PushRestores<T>(
    frames: seq<Frame<T>>, vars: map<nat, T>, saved: seq<Snapshot<T>>, now: Snapshot<T>)
    requires Restores(frames, vars, saved) && now.vars == vars
    ensures Restores(frames + [Frame({}, [], now.errors)], vars, saved + [now])
  {
    var after := frames + [Frame({}, [], now.errors)];
    forall i, id: nat | 0 <= i < |after| ensures Restored(after, vars, i, id) == Get((saved + [now])[i].vars, id) {
      RestoredBelow(after, vars, frames, vars, i, id);
    }
  }

  lemma PushKeepsIsolated(isolated: seq<nat>, open: seq<Context>, closed: bool)
    requires ListsIsolated(isolated, open)
    ensures ListsIsolated(if closed then isolated + [|open|] else isolated, open + [Context(closed, {})])
  {
    var marks := if closed then isolated + [|open|] else isolated;
    assert forall i | 0 <= i < |open| :: i in marks <==> i in isolated;
  }

  lemma {:induction false} PushKeepsRepresentation<T>(
    frames: seq<Frame<T>>, isolated: seq<nat>, s: Spec<T>, closed: bool)
    requires Represents(frames, isolated, s)
    ensures Represents(frames + [Frame({}, [], s.now.errors)],
                       if closed then isolated + [|frames|] else isolated, SpecStep(s, Push(closed)))
  {
    hide Restores, ListsIsolated;
    PushRestores(frames, s.now.vars, s.saved, s.now);
    PushKeepsIsolated(isolated, s.open, closed);
  }

  lemma SameLookups<T>(a: map<nat, T>, b: map<nat, T>)
    requires forall id: nat :: Get(a, id) == Get(b, id)
    ensures a == b
  {
    assert forall id: nat :: id in a <==> Get(a, id).Some?;
    assert forall id: nat :: id in b <==> Get(b, id).Some?;
    forall id | id in a ensures a[id] == b[id] { assert Get(a, id) == Get(b, id); }
  }

  lemma PopKeepsIsolated(isolated: seq<nat>, open: seq<Context>)
    requires ListsIsolated(isolated, open) && open != []
    ensures var n, m := |open| - 1, |isolated|;
            ListsIsolated(if m > 0 && isolated[m - 1] == n then isolated[..m - 1] else isolated, open[..n])
  {
    var n, m := |open| - 1, |isolated|;
    if m > 0 && isolated[m - 1] == n {
      assert forall i | 0 <= i < n :: i in isolated[..m - 1] <==> i in isolated by {
        assert isolated == isolated[..m - 1] + [n];
      }
    }
  }

  lemma ErrorsKeepRepresentation<T>(frames: seq<Frame<T>>, isolated: seq<nat>, s: Spec<T>, errors: map<nat, string>)
    requires Represents(frames, isolated, s)
    ensures Represents(frames, isolated, SpecStep(s, RecordErrors(errors)))
  {}

  lemma {:induction false} PopKeepsRepresentation<T>(
    frames: seq<Frame<T>>, isolated: seq<nat>, s: Spec<T>, vars: map<nat, T>)
    requires Represents(frames, isolated, s) && frames != []
    requires forall id: nat :: Get(vars, id) == RolledBack(frames[|frames| - 1].undo, s.now.vars, id)
    ensures var n, m := |frames| - 1, |isolated|;
            && Represents(frames[..n], if m > 0 && isolated[m - 1] == n then isolated[..m - 1] else isolated,
                          SpecStep(s, Pop))
            && SpecStep(s, Pop).now == s.saved[n] == Snapshot(vars, frames[n].errorsBefore)
  {
    hide Restores, ListsIsolated, Covers, FramesValid, LogsBound;
    IsolatedInRange(frames, isolated, s);
    var n, m := |frames| - 1, |isolated|;
    PopKeepsIsolated(isolated, s.open);
    PopRestores(frames, s.now.vars, s.saved, vars);
    PopKeepsFrames(frames, isolated, s.open, s.saved);
  }

  lemma {:induction false} PopRestores<T>(
    frames: seq<Frame<T>>, now: map<nat, T>, saved: seq<Snapshot<T>>, vars: map<nat, T>)
    requires Restores(frames, now, saved) && frames != []
    requires forall id: nat :: Get(vars, id) == RolledBack(frames[|frames| - 1].undo, now, id)
    ensures var n := |frames| - 1;
            Restores(frames[..n], vars, saved[..n]) && vars == saved[n].vars
  {
    var n := |frames| - 1;
    assert forall id: nat :: Restored(frames, now, n, id) == RolledBack(frames[n].undo, now, id);
    SameLookups(vars, saved[n].vars);
    forall i, id: nat | 0 <= i < n ensures Restored(frames[..n], vars, i, id) == Get(saved[i].vars, id) {
      RestoredBelow(frames, now, frames[..n], vars, i, id);
    }
  }

  lemma PopKeepsFrames<T>(frames: seq<Frame<T>>, isolated: seq<nat>, open: seq<Context>, saved: seq<Snapshot<T>>)
    requires Covers(frames, isolated) && FramesValid(frames, saved) && LogsBound(frames, open) && frames != []
    ensures var n, m := |frames| - 1, |isolated|;
            && Covers(frames[..n], if m > 0 && isolated[m - 1] == n then isolated[..m - 1] else isolated)
            && FramesValid(frames[..n], saved[..n])
            && LogsBound(frames[..n], open[..n])
            && frames[n].errorsBefore == saved[n].errors
  {
    var n, m := |frames| - 1, |isolated|;
    var marks := if m > 0 && isolated[m - 1] == n then isolated[..m - 1] else isolated;
    assert forall i | i in marks :: i in isolated;
  }

  lemma PopOfNothing<T>(s: Spec<T>)
    requires s.open == [] && s.saved == []
    ensures SpecStep(s, Pop) == s
  {}

  lemma IsolatedInRange<T>(frames: seq<Frame<T>>, isolated: seq<nat>, s: Spec<T>)
    requires Represents(frames, isolated, s)
    ensures ListsIsolated(isolated, s.open) && |s.open| == |s.saved| == |frames|
  {}

  // ---------- The environment ----------

  class TypeEnv<T> {
    var vars: map<nat, T>
    var concreteErrors: map<nat, string>
    var frames: seq<Frame<T>>
    var isolated: seq<nat>
    /** The calls made so far. */
    ghost var trace: seq<Op<T>>
    /** What the specification makes of them. */
    ghost var spec: Spec<T>

    /** Along every run the environment holds what the specification says after the same calls. */
    ghost predicate Valid()
      reads this
    {
      && spec.now == Snapshot(vars, concreteErrors)
      && Represents(frames, isolated, spec)
      && spec == SpecRun(trace)
    }

    constructor ()
      ensures Valid() && trace == []
    {
      vars, concreteErrors, frames, isolated, trace := map[], map[], [], [], [];
      spec := SpecRun([]);
    }

    ghost method Note(op: Op<T>)
      requires spec == SpecRun(trace)
      modifies this`trace, this`spec
      ensures trace == old(trace) + [op] && spec == SpecRun(trace) == SpecStep(old(spec), op)
    {
      RunSnoc(trace, op);
      trace := trace + [op];
      spec := SpecRun(trace);
    }

    method RecordVarChange(index: nat, id: nat)
      requires index < |frames|
      modifies this`frames
      ensures frames == old(frames)[index := Record(old(frames)[index], id, Get(vars, id))]
    {
      var frame := frames[index];
      if id !in frame.touched {
        frame := frame.(touched := frame.touched + {id}, undo := frame.undo + [(id, Get(vars, id))]);
      }
      frames := frames[index := frame];
    }

    method RecordIsolatedVarChange(id: nat)
      requires forall p | 0 <= p < |isolated| :: isolated[p] < |frames|
      modifies this`frames
      ensures frames == RecordIn(old(frames), Marks(isolated, |old(frames)|, false), id, Get(vars, id))
    {
      for position := 0 to |isolated|
        invariant frames == RecordIn(old(frames), Marks(isolated[..position], |old(frames)|, false), id, Get(vars, id))
      {
        RecordVarChange(isolated[position], id);
      }
      assert isolated[..|isolated|] == isolated;
    }

    method RecordBinding(id: nat)
      requires forall p | 0 <= p < |isolated| :: isolated[p] < |frames|
      requires ListsIsolated(isolated, spec.open) && |spec.open| == |frames|
      modifies this`frames
      ensures frames == RecordIn(old(frames), Marks(isolated, |old(frames)|, true), id, Get(vars, id))
    {
      hide *;
      LogInnermost(frames, isolated, spec.open, id, Get(vars, id));
      RecordIsolatedVarChange(id);
      var n := |frames|;
      if n > 0 && !(|isolated| > 0 && isolated[|isolated| - 1] == n - 1) {
        RecordVarChange(n - 1, id);
      }
    }

    method BindVar(id: nat, ty: T)
      requires Valid()
      modifies this
      ensures Valid() && trace == old(trace) + [Bind(id, ty)]
      ensures vars == old(vars)[id := ty] && concreteErrors == old(concreteErrors)
    {
      hide Represents, RecordIn;
      IsolatedInRange(frames, isolated, spec);
      RecordBinding(id);
      BindKeepsRepresentation(old(frames), isolated, spec, id, ty);
      vars := vars[id := ty];
      Note(Bind(id, ty));
    }

    method NormalizeVar(id: nat, ty: T)
      requires Valid()
      modifies this
      ensures Valid() && trace == old(trace) + [Normalize(id, ty)]
      ensures vars == old(vars)[id := ty] && concreteErrors == old(concreteErrors)
    {
      hide Represents, RecordIn;
      IsolatedInRange(frames, isolated, spec);
      RecordIsolatedVarChange(id);
      NormalizeKeepsRepresentation(old(frames), isolated, spec, id, ty);
      vars := vars[id := ty];
      Note(Normalize(id, ty));
    }

    /** The checker assigns the concrete-error map directly. */
    method RecordConcreteErrors(errors: map<nat, string>)
      requires Valid()
      modifies this
      ensures Valid() && trace == old(trace) + [RecordErrors(errors)]
      ensures vars == old(vars) && concreteErrors == errors
    {
      hide Represents;
      ErrorsKeepRepresentation(frames, isolated, spec, errors);
      concreteErrors := errors;
      Note(RecordErrors(errors));
    }

    method PushVarScope()
      requires Valid()
      modifies this
      ensures Valid() && trace == old(trace) + [Push(false)]
      ensures vars == old(vars) && concreteErrors == old(concreteErrors) && |frames| == |old(frames)| + 1
    {
      hide Represents;
      PushKeepsRepresentation(frames, isolated, spec, false);
      frames := frames + [Frame({}, [], concreteErrors)];
      Note(Push(false));
    }

    method PushIsolatedVarScope()
      requires Valid()
      modifies this
      ensures Valid() && trace == old(trace) + [Push(true)]
      ensures vars == old(vars) && concreteErrors == old(concreteErrors) && |frames| == |old(frames)| + 1
    {
      hide Represents;
      PushKeepsRepresentation(frames, isolated, spec, true);
      frames := frames + [Frame({}, [], concreteErrors)];
      isolated := isolated + [|frames| - 1];
      Note(Push(true));
    }

    method RollBack(undo: seq<(nat, Option<T>)>)
      modifies this`vars
      ensures forall q: nat :: Get(vars, q) == RolledBack(undo, old(vars), q)
    {
      for i := |undo| downto 0
        invariant forall q: nat :: Get(vars, q) == RolledBack(undo[i..], old(vars), q)
      {
        var (id, prior) := undo[i];
        assert undo[i..][0] == undo[i] && undo[i..][1..] == undo[i + 1..];
        ghost var before := vars;
        if prior.Some? {
          vars := vars[id := prior.value];
        } else {
          vars := vars - {id};
        }
        assert forall q: nat :: Get(vars, q) == if q == id then prior else Get(before, q);
      }
      assert undo[0..] == undo;
    }

    method PopVarScope()
      requires Valid()
      modifies this
      ensures Valid() && trace == old(trace) + [Pop]
      ensures |frames| == if old(frames) == [] then 0 else |old(frames)| - 1
      ensures old(frames) == [] ==> vars == old(vars) && concreteErrors == old(concreteErrors)
      ensures old(frames) != [] ==> Snapshot(vars, concreteErrors) == old(spec.saved[|frames| - 1])
    {
      hide Represents, RolledBack, ListsIsolated, SpecStep, SpecRun;
      IsolatedInRange(frames, isolated, spec);
      if frames == [] {
        assert SpecStep(spec, Pop) == spec by { PopOfNothing(spec); }
        Note(Pop);
        return;
      }
      var frame := frames[|frames| - 1];
      frames := frames[..|frames| - 1];
      if |isolated| > 0 && isolated[|isolated| - 1] == |frames| {
        isolated := isolated[..|isolated| - 1];
      }
      concreteErrors := frame.errorsBefore;
      RollBack(frame.undo);
      PopKeepsRepresentation(old(frames), old(isolated), spec, vars);
      Note(Pop);
    }

    method LookupVar(id: nat) returns (ty: Option<T>)
      requires Valid()
      ensures ty == Get(spec.now.vars, id)
    {
      ty := if id in vars then Some(vars[id]) else None;
    }
  }

  /**
    After any run that closes a scope, the environment itself holds the contents from before the scope
    with the surviving normalisations replayed; after an isolated scope, exactly those contents.
   */
  lemma EnvironmentAfterScope<T>(env: TypeEnv<T>, pre: seq<Op<T>>, isolated: bool, body: seq<Op<T>>)
    requires env.Valid() && Balanced(body) && env.trace == pre + [Push(isolated)] + body + [Pop]
    ensures env.vars == Replay(SpecRun(pre).now.vars, Surviving(isolated, body))
    ensures env.concreteErrors == SpecRun(pre).now.errors
    ensures isolated ==> env.vars == SpecRun(pre).now.vars
  {
    hide SpecStep, SpecRun, Represents, Surviving;
    ScopeReplaysSurvivors(pre, isolated, body);
    if isolated { IsolatedScopeRestoresExactly(pre, body); }
  }
}
