/** The single-monitor protocol of demoapps/powmon/highlander.c: processes elect a leader through the
    named semaphores K and L (POSIX.1-2017, sem_open, sem_post, sem_wait, sem_unlink). One step is one
    semaphore call of one process; a run is any interleaving of any number of processes. */
module Highlander {
  import opened Words

  /** Where a process is. The leader remembers the one sample it takes of K. */
  datatype Pc =
    | Start                      // before sem_open(K, O_CREAT | O_EXCL)
    | LeaderOpenL                // K was created here
    | LeaderWork                 // highlander() returned 1
    | LeaderTest(sample: nat)    // in highlander_wait, at the loop
    | LeaderUnlinkK(sample: nat)
    | LeaderUnlinkL(sample: nat)
    | LeaderDone(sample: nat)
    | FoeOpenK                   // K existed
    | FoeOpenL
    | FoePost
    | FoeWork                    // highlander() returned 0
    | FoeWait                    // in highlander_wait, at sem_wait(K)
    | FoePostL
    | FoeDone

  /** A process and the semaphore objects it opened under the two names. */
  datatype Proc = Proc(pc: Pc, k: nat, l: nat)

  /** The processes, the counts of all objects ever created under each name, and the object each name
      refers to now. */
  datatype State = State(procs: seq<Proc>, kObjs: seq<nat>, lObjs: seq<nat>, nameK: Option<nat>, nameL: Option<nat>)

  function Init(n: nat): (s: State)
    ensures |s.procs| == n
  {
    State(seq(n, i => Proc(Start, 0, 0)), [], [], None, None)
  }

  function Goto(s: State, p: nat, q: Proc): State
    requires p < |s.procs|
  {
    s.(procs := s.procs[p := q])
  }

  /** sem_open(L, O_CREAT), then on to `next`. */
  function OpenL(s: State, p: nat, next: Pc): State
    requires p < |s.procs|
  {
    match s.nameL
    case Some(o) => Goto(s, p, Proc(next, s.procs[p].k, o))
    case None =>
      Goto(s.(lObjs := s.lObjs + [0], nameL := Some(|s.lObjs|)), p, Proc(next, s.procs[p].k, |s.lObjs|))
  }

  function Count(objs: seq<nat>, o: nat): nat {
    if o < |objs| then objs[o] else 0
  }

  /** The next semaphore call of process p; a blocked call leaves the state as it is. */
  function Step(s: State, p: nat): State
    requires p < |s.procs|
  {
    var q := s.procs[p];
    match q.pc
    case Start =>
      (match s.nameK
       case None => Goto(s.(kObjs := s.kObjs + [0], nameK := Some(|s.kObjs|)), p, Proc(LeaderOpenL, |s.kObjs|, q.l))
       case Some(_) => Goto(s, p, Proc(FoeOpenK, q.k, q.l)))
    case LeaderOpenL => OpenL(s, p, LeaderWork)
    case LeaderWork => Goto(s, p, Proc(LeaderTest(Count(s.kObjs, q.k)), q.k, q.l))
    case LeaderTest(v) =>
      if v > 1 then
        // sem_wait(L), and round again with the same sample
        if Count(s.lObjs, q.l) > 0 then s.(lObjs := s.lObjs[q.l := s.lObjs[q.l] - 1]) else s
      else Goto(s, p, Proc(LeaderUnlinkK(v), q.k, q.l))
    case LeaderUnlinkK(v) => Goto(s.(nameK := None), p, Proc(LeaderUnlinkL(v), q.k, q.l))
    case LeaderUnlinkL(v) => Goto(s.(nameL := None), p, Proc(LeaderDone(v), q.k, q.l))
    case LeaderDone(_) => s
    case FoeOpenK =>
      (match s.nameK
       case Some(o) => Goto(s, p, Proc(FoeOpenL, o, q.l))
       case None => Goto(s.(kObjs := s.kObjs + [0], nameK := Some(|s.kObjs|)), p, Proc(FoeOpenL, |s.kObjs|, q.l)))
    case FoeOpenL => OpenL(s, p, FoePost)
    case FoePost =>
      if q.k < |s.kObjs| then Goto(s.(kObjs := s.kObjs[q.k := s.kObjs[q.k] + 1]), p, Proc(FoeWork, q.k, q.l)) else s
    case FoeWork => Goto(s, p, Proc(FoeWait, q.k, q.l))
    case FoeWait =>
      if Count(s.kObjs, q.k) > 0 then
        Goto(s.(kObjs := s.kObjs[q.k := s.kObjs[q.k] - 1]), p, Proc(FoePostL, q.k, q.l))
      else s
    case FoePostL =>
      if q.l < |s.lObjs| then Goto(s.(lObjs := s.lObjs[q.l := s.lObjs[q.l] + 1]), p, Proc(FoeDone, q.k, q.l)) else s
    case FoeDone => s
  }

  predicate Schedule(n: nat, sched: seq<nat>) {
    forall i :: 0 <= i < |sched| ==> sched[i] < n
  }

  function Run(s: State, sched: seq<nat>): (t: State)
    requires Schedule(|s.procs|, sched)
    ensures |t.procs| == |s.procs|
    decreases |sched|
  {
    if sched == [] then s else Run(Step(s, sched[0]), sched[1..])
  }

  // ----- the invariant

  /** From winning O_EXCL to unlinking K. */
  predicate Active(pc: Pc) {
    pc.LeaderOpenL? || pc.LeaderWork? || pc.LeaderTest? || pc.LeaderUnlinkK?
  }

  /** A foe that has posted K and not waited yet. */
  predicate Registered(q: Proc, o: nat) {
    (q.pc == FoeWork || q.pc == FoeWait) && q.k == o
  }

  predicate HasK(pc: Pc) {
    pc != Start && pc != FoeOpenK
  }

  predicate HasL(pc: Pc) {
    HasK(pc) && pc != LeaderOpenL && pc != FoeOpenL
  }

  predicate Leaving(pc: Pc) {
    pc.LeaderUnlinkK? || pc.LeaderUnlinkL? || pc.LeaderDone?
  }

  /** The number of foes registered with object o. */
  function Foes(procs: seq<Proc>, o: nat): nat
    decreases |procs|
  {
    if procs == [] then 0
    else Foes(procs[..|procs| - 1], o) + if Registered(procs[|procs| - 1], o) then 1 else 0
  }

  lemma {:induction false} FoesAfter(procs: seq<Proc>, p: nat, q: Proc, o: nat)
    requires p < |procs|
    ensures Foes(procs[p := q], o)
         == Foes(procs, o) - (if Registered(procs[p], o) then 1 else 0) + (if Registered(q, o) then 1 else 0)
    ensures Registered(procs[p], o) ==> Foes(procs, o) > 0
    decreases |procs|
  {
    var n := |procs| - 1;
    if p == n {
      assert procs[p := q][..n] == procs[..n];
    } else {
      FoesAfter(procs[..n], p, q, o);
      assert procs[p := q][..n] == procs[..n][p := q];
    }
  }

  /** One process, against the objects and names. */
  predicate ProcOk(q: Proc, kObjs: seq<nat>, lObjs: seq<nat>, nameK: Option<nat>) {
    && (HasK(q.pc) ==> q.k < |kObjs|)
    && (HasL(q.pc) ==> q.l < |lObjs|)
    && (Active(q.pc) ==> nameK == Some(q.k))
    && (Leaving(q.pc) ==> q.pc.sample <= 1)
  }

  ghost predicate Inv(s: State) {
    && (s.nameK.Some? ==> s.nameK.value < |s.kObjs|)
    && (s.nameL.Some? ==> s.nameL.value < |s.lObjs|)
    && (forall p :: 0 <= p < |s.procs| ==> ProcOk(s.procs[p], s.kObjs, s.lObjs, s.nameK))
    && (forall p, q :: 0 <= p < q < |s.procs| ==> !(Active(s.procs[p].pc) && Active(s.procs[q].pc)))
    && (forall o :: 0 <= o < |s.kObjs| ==> s.kObjs[o] == Foes(s.procs, o))
  }

  lemma {:induction false} NoFoes(procs: seq<Proc>, o: nat)
    requires forall i :: 0 <= i < |procs| ==> HasK(procs[i].pc) ==> procs[i].k != o
    ensures Foes(procs, o) == 0
    decreases |procs|
  {
    if procs != [] {
      NoFoes(procs[..|procs| - 1], o);
    }
  }

  function One(b: bool): int {
    if b then 1 else 0
  }

  /** What a step changes: one process, counts in step with its registration, and the name K only from
      nothing or by the active leader. */
  ghost predicate Changes(s: State, t: State, p: nat)
    requires p < |s.procs| == |t.procs|
  {
    && t.procs == s.procs[p := t.procs[p]]
    && |s.kObjs| <= |t.kObjs| <= |s.kObjs| + 1 && |s.lObjs| <= |t.lObjs|
    && (t.nameK == s.nameK || s.nameK == None || Active(s.procs[p].pc))
    && (t.nameK.Some? ==> t.nameK.value < |t.kObjs|) && (t.nameL.Some? ==> t.nameL.value < |t.lObjs|)
    && ProcOk(t.procs[p], t.kObjs, t.lObjs, t.nameK)
    && (Active(t.procs[p].pc) ==> Active(s.procs[p].pc) || s.nameK == None)
    && (forall o :: 0 <= o < |s.kObjs| ==>
          t.kObjs[o] + One(Registered(s.procs[p], o)) == s.kObjs[o] + One(Registered(t.procs[p], o)))
    && (|t.kObjs| > |s.kObjs| ==> t.kObjs[|s.kObjs|] == 0 && !Registered(t.procs[p], |s.kObjs|))
  }

  predicate IsFoe(pc: Pc) {
    pc.FoeOpenK? || pc.FoeOpenL? || pc.FoePost? || pc.FoeWork? || pc.FoeWait? || pc.FoePostL? || pc.FoeDone?
  }

  lemma OpenChanges(s: State, p: nat)
    requires Inv(s) && p < |s.procs|
    requires s.procs[p].pc == Start || s.procs[p].pc == FoeOpenK
    ensures Changes(s, Step(s, p), p)
  {
  }

  lemma OpenLChanges(s: State, p: nat)
    requires Inv(s) && p < |s.procs|
    requires s.procs[p].pc == LeaderOpenL || s.procs[p].pc == FoeOpenL
    ensures Changes(s, Step(s, p), p)
  {
    assert ProcOk(s.procs[p], s.kObjs, s.lObjs, s.nameK);
  }

  lemma LeaderChanges(s: State, p: nat)
    requires Inv(s) && p < |s.procs|
    requires !IsFoe(s.procs[p].pc) && s.procs[p].pc != Start && s.procs[p].pc != LeaderOpenL
    ensures Changes(s, Step(s, p), p)
  {
    assert ProcOk(s.procs[p], s.kObjs, s.lObjs, s.nameK);
  }

  lemma FoeChanges(s: State, p: nat)
    requires Inv(s) && p < |s.procs|
    requires IsFoe(s.procs[p].pc) && s.procs[p].pc != FoeOpenK && s.procs[p].pc != FoeOpenL
    ensures Changes(s, Step(s, p), p)
  {
    var q := s.procs[p];
    assert ProcOk(q, s.kObjs, s.lObjs, s.nameK);
    if q.pc == FoeWait {
      FoesAfter(s.procs, p, q, q.k);
    }
  }

  lemma StepChanges(s: State, p: nat)
    requires Inv(s) && p < |s.procs|
    ensures Changes(s, Step(s, p), p)
  {
    match s.procs[p].pc
    case Start => OpenChanges(s, p);
    case FoeOpenK => OpenChanges(s, p);
    case LeaderOpenL => OpenLChanges(s, p);
    case FoeOpenL => OpenLChanges(s, p);
    case FoePost => FoeChanges(s, p);
    case FoeWork => FoeChanges(s, p);
    case FoeWait => FoeChanges(s, p);
    case FoePostL => FoeChanges(s, p);
    case FoeDone => FoeChanges(s, p);
    case _ => LeaderChanges(s, p);
  }

  lemma ChangesKeepInv(s: State, t: State, p: nat)
    requires Inv(s) && p < |s.procs| == |t.procs| && Changes(s, t, p)
    ensures Inv(t)
  {
    forall i | 0 <= i < |t.procs|
      ensures ProcOk(t.procs[i], t.kObjs, t.lObjs, t.nameK)
      ensures i != p && Active(t.procs[i].pc) ==> !Active(t.procs[p].pc)
    {
      assert ProcOk(s.procs[i], s.kObjs, s.lObjs, s.nameK);
    }
    CountsKept(s, t, p);
  }

  lemma CountsKept(s: State, t: State, p: nat)
    requires Inv(s) && p < |s.procs| == |t.procs| && Changes(s, t, p)
    ensures forall o :: 0 <= o < |t.kObjs| ==> t.kObjs[o] == Foes(t.procs, o)
  {
    forall o | 0 <= o < |t.kObjs|
      ensures t.kObjs[o] == Foes(t.procs, o)
    {
      FoesAfter(s.procs, p, t.procs[p], o);
      if o == |s.kObjs| {
        NoFoes(s.procs, o);
      }
    }
  }

  lemma StepKeepsInv(s: State, p: nat)
    requires Inv(s) && p < |s.procs|
    ensures Inv(Step(s, p))
  {
    StepChanges(s, p);
    ChangesKeepInv(s, Step(s, p), p);
  }

  lemma {:induction false} RunKeepsInv(s: State, sched: seq<nat>)
    requires Inv(s) && Schedule(|s.procs|, sched)
    ensures Inv(Run(s, sched))
    decreases |sched|
  {
    if sched != [] {
      StepKeepsInv(s, sched[0]);
      RunKeepsInv(Step(s, sched[0]), sched[1..]);
    }
  }

  // ----- safety of every run

  /** A state some interleaving of n processes reaches. */
  ghost predicate Reachable(n: nat, s: State) {
    exists sched :: Schedule(n, sched) && s == Run(Init(n), sched)
  }

  lemma ReachableInv(n: nat, s: State)
    requires Reachable(n, s)
    ensures Inv(s) && |s.procs| == n
  {
    var sched :| Schedule(n, sched) && s == Run(Init(n), sched);
    RunKeepsInv(Init(n), sched);
  }

  /** At most one process is an active leader, and the name K is then the semaphore it created. */
  lemma OneLeader(n: nat, s: State, p: nat, q: nat)
    requires Reachable(n, s) && p < n && q < n && Active(s.procs[p].pc) && Active(s.procs[q].pc)
    ensures p == q && s.nameK == Some(s.procs[p].k)
  {
    ReachableInv(n, s);
    assert ProcOk(s.procs[p], s.kObjs, s.lObjs, s.nameK);
  }

  /** The count of a K semaphore is the number of foes that posted it and have not waited, so a foe's
      wait never blocks. */
  lemma FoeNeverBlocks(n: nat, s: State, p: nat)
    requires Reachable(n, s) && p < n && s.procs[p].pc == FoeWait
    ensures s.procs[p].k < |s.kObjs| && s.kObjs[s.procs[p].k] == Foes(s.procs, s.procs[p].k)
    ensures Step(s, p).procs[p].pc == FoePostL
  {
    ReachableInv(n, s);
    assert ProcOk(s.procs[p], s.kObjs, s.lObjs, s.nameK);
    FoesAfter(s.procs, p, s.procs[p], s.procs[p].k);
  }

  /** The sample the leader takes is the number of foes registered at that moment. */
  lemma SampleIsFoes(n: nat, s: State, p: nat)
    requires Reachable(n, s) && p < n && s.procs[p].pc == LeaderWork
    ensures Step(s, p).procs[p].pc == LeaderTest(Foes(s.procs, s.procs[p].k))
  {
    ReachableInv(n, s);
    assert ProcOk(s.procs[p], s.kObjs, s.lObjs, s.nameK);
  }

  // ----- the count of L

  /** The foes that are done, having posted object o under the name L. */
  function Done(procs: seq<Proc>, o: nat): nat
    decreases |procs|
  {
    if procs == [] then 0
    else Done(procs[..|procs| - 1], o) + if IsDone(procs[|procs| - 1], o) then 1 else 0
  }

  predicate IsDone(q: Proc, o: nat) {
    q.pc == FoeDone && q.l == o
  }

  lemma {:induction false} DoneAfter(procs: seq<Proc>, p: nat, q: Proc, o: nat)
    requires p < |procs|
    ensures Done(procs[p := q], o)
         == Done(procs, o) - (if IsDone(procs[p], o) then 1 else 0) + (if IsDone(q, o) then 1 else 0)
    decreases |procs|
  {
    var n := |procs| - 1;
    if p == n {
      assert procs[p := q][..n] == procs[..n];
    } else {
      DoneAfter(procs[..n], p, q, o);
      assert procs[p := q][..n] == procs[..n][p := q];
    }
  }

  /** The next step of p is a wait on object o that does not block. */
  predicate Waits(s: State, p: nat, o: nat) {
    && p < |s.procs| && s.procs[p].pc.LeaderTest? && s.procs[p].pc.sample > 1
    && s.procs[p].l == o && Count(s.lObjs, o) > 0
  }

  /** How often a run waits on object o. */
  function Waited(n: nat, sched: seq<nat>, o: nat): nat
    requires Schedule(n, sched)
    decreases |sched|
  {
    if sched == [] then 0
    else
      var before := sched[..|sched| - 1];
      Waited(n, before, o) + if Waits(Run(Init(n), before), sched[|sched| - 1], o) then 1 else 0
  }

  lemma {:induction false} NobodyDone(n: nat, o: nat)
    ensures Done(Init(n).procs, o) == 0
    decreases n
  {
    if n > 0 {
      NobodyDone(n - 1, o);
      assert Init(n).procs[..n - 1] == Init(n - 1).procs;
    }
  }

  lemma StepPostsL(s: State, p: nat, o: nat)
    requires Inv(s) && p < |s.procs|
    ensures var t := Step(s, p);
      Done(t.procs, o) + Count(s.lObjs, o) == Done(s.procs, o) + Count(t.lObjs, o) + if Waits(s, p, o) then 1 else 0
  {
    var t := Step(s, p);
    StepChanges(s, p);
    DoneAfter(s.procs, p, t.procs[p], o);
    assert ProcOk(s.procs[p], s.kObjs, s.lObjs, s.nameK);
  }

  /** Every foe posts L once, when it is done: over every run the count of an L semaphore is the foes done with it,
      less the leader's waits on it. */
  lemma {:induction false} LCountsDone(n: nat, sched: seq<nat>, o: nat)
    requires Schedule(n, sched)
    ensures var s := Run(Init(n), sched); Done(s.procs, o) == Count(s.lObjs, o) + Waited(n, sched, o)
    decreases |sched|
  {
    if sched == [] {
      NobodyDone(n, o);
    } else {
      var before, p := sched[..|sched| - 1], sched[|sched| - 1];
      LCountsDone(n, before, o);
      RunKeepsInv(Init(n), before);
      assert before + [p] == sched;
      RunSnoc(Init(n), before, p);
      StepPostsL(Run(Init(n), before), p, o);
    }
  }

  /** A registered foe can always finish on its own: three calls take one from the count of its K, add one to the
      count of its L, and leave everything else alone. */
  lemma FoeFinishes(n: nat, s: State, p: nat)
    requires Reachable(n, s) && p < n && s.procs[p].pc == FoeWork
    ensures var k, l := s.procs[p].k, s.procs[p].l;
      && k < |s.kObjs| && s.kObjs[k] > 0 && l < |s.lObjs|
      && Run(s, [p] + ([p] + ([p] + [])))
         == State(s.procs[p := Proc(FoeDone, k, l)], s.kObjs[k := s.kObjs[k] - 1], s.lObjs[l := s.lObjs[l] + 1], s.nameK, s.nameL)
  {
    FoeObjects(n, s, p);
    FoeRuns(s, p, s.procs[p].k, s.procs[p].l);
  }

  lemma FoeObjects(n: nat, s: State, p: nat)
    requires Reachable(n, s) && p < n && s.procs[p].pc == FoeWork
    ensures p < |s.procs| && s.procs[p].k < |s.kObjs| && s.kObjs[s.procs[p].k] > 0 && s.procs[p].l < |s.lObjs|
  {
    ReachableInv(n, s);
    assert ProcOk(s.procs[p], s.kObjs, s.lObjs, s.nameK);
    FoesAfter(s.procs, p, s.procs[p], s.procs[p].k);
  }

  lemma FoeRuns(s: State, p: nat, k: nat, l: nat)
    requires p < |s.procs| && s.procs[p] == Proc(FoeWork, k, l)
    requires k < |s.kObjs| && s.kObjs[k] > 0 && l < |s.lObjs|
    ensures Run(s, [p] + ([p] + ([p] + [])))
         == State(s.procs[p := Proc(FoeDone, k, l)], s.kObjs[k := s.kObjs[k] - 1], s.lObjs[l := s.lObjs[l] + 1], s.nameK, s.nameL)
  {
    var a := FoeWaits(s, p, k, l);
    var b := FoeTakes(a, p, k, l);
    var c := FoePosts(b, p, k, l);
    assert c.procs == s.procs[p := Proc(FoeDone, k, l)];
    RunOne(s, p, [p] + ([p] + []));
    RunOne(a, p, [p] + []);
    RunOne(b, p, []);
  }

  /** The three calls: entering the wait, taking one from K, posting L. */
  lemma FoeWaits(s: State, p: nat, k: nat, l: nat) returns (t: State)
    requires p < |s.procs| && s.procs[p] == Proc(FoeWork, k, l)
    ensures t == Step(s, p) == State(s.procs[p := Proc(FoeWait, k, l)], s.kObjs, s.lObjs, s.nameK, s.nameL)
  {
    t := Step(s, p);
  }

  lemma FoeTakes(s: State, p: nat, k: nat, l: nat) returns (t: State)
    requires p < |s.procs| && s.procs[p] == Proc(FoeWait, k, l) && k < |s.kObjs| && s.kObjs[k] > 0
    ensures t == Step(s, p) == State(s.procs[p := Proc(FoePostL, k, l)], s.kObjs[k := s.kObjs[k] - 1], s.lObjs, s.nameK, s.nameL)
  {
    t := Step(s, p);
  }

  lemma FoePosts(s: State, p: nat, k: nat, l: nat) returns (t: State)
    requires p < |s.procs| && s.procs[p] == Proc(FoePostL, k, l) && l < |s.lObjs|
    ensures t == Step(s, p) == State(s.procs[p := Proc(FoeDone, k, l)], s.kObjs, s.lObjs[l := s.lObjs[l] + 1], s.nameK, s.nameL)
  {
    t := Step(s, p);
  }

  // ----- when the leader leaves

  lemma {:induction false} OthersDoNotMove(s: State, sched: seq<nat>, p: nat)
    requires Schedule(|s.procs|, sched) && p < |s.procs|
    requires s.procs[p].pc.LeaderTest? && s.procs[p].pc.sample > 1
    ensures Run(s, sched).procs[p] == s.procs[p]
    decreases |sched|
  {
    if sched != [] {
      OthersDoNotMove(Step(s, sched[0]), sched[1..], p);
    }
  }

  lemma RunOne(s: State, p: nat, rest: seq<nat>)
    requires p < |s.procs| && Schedule(|s.procs|, rest)
    ensures Run(s, [p] + rest) == Run(Step(s, p), rest)
  {
    assert ([p] + rest)[1..] == rest;
  }

  lemma LastSteps(s: State, p: nat)
    requires p < |s.procs| && s.procs[p].pc.LeaderTest? && s.procs[p].pc.sample <= 1
    ensures Schedule(|s.procs|, [p] + ([p] + ([p] + []))) && Run(s, [p] + ([p] + ([p] + []))).procs[p].pc.LeaderDone?
  {
    var t := Step(s, p);
    var u := Step(t, p);
    RunOne(s, p, [p] + ([p] + []));
    RunOne(t, p, [p] + []);
    RunOne(u, p, []);
  }

  /** A leader at its loop leaves highlander_wait, in some continuation of the run, exactly when its one
      sample of K was at most 1: the loop never samples again. */
  lemma LeavesExactly(s: State, p: nat)
    requires p < |s.procs| && s.procs[p].pc.LeaderTest?
    ensures (exists sched :: Schedule(|s.procs|, sched) && Run(s, sched).procs[p].pc.LeaderDone?)
      <==> s.procs[p].pc.sample <= 1
  {
    if s.procs[p].pc.sample <= 1 {
      LastSteps(s, p);
    } else {
      forall sched | Schedule(|s.procs|, sched)
        ensures !Run(s, sched).procs[p].pc.LeaderDone?
      {
        OthersDoNotMove(s, sched, p);
      }
    }
  }

  /** The foe and the leader of the semaphore k are still and already there: the foe has not waited, and
      the leader is gone. */
  predicate LeftBehind(s: State, p: nat, f: nat, k: nat)
    requires p < |s.procs|
  {
    f < |s.procs| && s.procs[p].pc.LeaderDone? && Registered(s.procs[f], k)
  }

  lemma {:induction false} SomeFoe(procs: seq<Proc>, o: nat) returns (f: nat)
    requires Foes(procs, o) > 0
    ensures f < |procs| && Registered(procs[f], o)
    decreases |procs|
  {
    if Registered(procs[|procs| - 1], o) {
      f := |procs| - 1;
    } else {
      f := SomeFoe(procs[..|procs| - 1], o);
    }
  }

  lemma {:induction false} OneProcessMoves(s: State, p: nat, steps: nat) returns (sched: seq<nat>)
    requires Inv(s) && p < |s.procs|
    ensures sched == seq(steps, i => p) && Schedule(|s.procs|, sched)
    ensures forall f :: 0 <= f < |s.procs| && f != p ==> Run(s, sched).procs[f] == s.procs[f]
    decreases steps
  {
    sched := seq(steps, i => p);
    if steps > 0 {
      StepChanges(s, p);
      StepKeepsInv(s, p);
      var rest := OneProcessMoves(Step(s, p), p, steps - 1);
      assert sched[1..] == rest;
    }
  }

  /** The leader can leave while a foe that was registered when it took its sample has not called wait, if
      and only if exactly one foe was registered. */
  lemma LeavesRegisteredExactly(n: nat, s: State, p: nat)
    requires Reachable(n, s) && p < n && s.procs[p].pc == LeaderWork
    ensures var k := s.procs[p].k;
      (exists sched, f: nat :: Schedule(n, sched) && f < n && Registered(s.procs[f], k)
                            && LeftBehind(Run(Step(s, p), sched), p, f, k))
      <==> Foes(s.procs, k) == 1
  {
    var k, t := s.procs[p].k, Step(s, p);
    ReachableInv(n, s);
    SampleIsFoes(n, s, p);
    if sched, f: nat :| Schedule(n, sched) && f < n && Registered(s.procs[f], k) && LeftBehind(Run(t, sched), p, f, k) {
      LeavesExactly(t, p);
      FoesAfter(s.procs, f, s.procs[f], k);
    }
    if Foes(s.procs, k) == 1 {
      StepKeepsInv(s, p);
      var f := SomeFoe(s.procs, k);
      var sched := LeavesAlone(t, p);
      assert t.procs[f] == s.procs[f];
      assert LeftBehind(Run(t, sched), p, f, k);
    }
  }

  /** A process that has registered with k and not waited, or can still come to register with it while the name
      refers to it. */
  predicate May(q: Proc, k: nat) {
    || q.pc == Start || q.pc == FoeOpenK
    || ((q.pc == FoeOpenL || q.pc == FoePost) && q.k == k)
    || Registered(q, k)
  }

  predicate NobodyMay(s: State, k: nat) {
    forall q :: 0 <= q < |s.procs| ==> !May(s.procs[q], k)
  }

  /** A process that may not register with k never does. */
  lemma {:induction false} NobodyEverMay(s: State, sched: seq<nat>, k: nat)
    requires NobodyMay(s, k) && Schedule(|s.procs|, sched)
    ensures NobodyMay(Run(s, sched), k)
    decreases |sched|
  {
    if sched != [] {
      StillNobody(s, sched[0], k);
      NobodyEverMay(Step(s, sched[0]), sched[1..], k);
    }
  }

  lemma StillNobody(s: State, x: nat, k: nat)
    requires NobodyMay(s, k) && x < |s.procs|
    ensures NobodyMay(Step(s, x), k)
  {
    assert !May(s.procs[x], k);
    assert !May(Step(s, x).procs[x], k);
  }

  lemma {:induction false} RunAppend(s: State, first: seq<nat>, second: seq<nat>)
    requires Schedule(|s.procs|, first) && Schedule(|s.procs|, second)
    ensures Schedule(|s.procs|, first + second) && Run(s, first + second) == Run(Run(s, first), second)
    decreases |first|
  {
    if first == [] {
      assert first + second == second;
    } else {
      RunAppend(Step(s, first[0]), first[1..], second);
      assert (first + second)[1..] == first[1..] + second;
    }
  }

  /** How many calls a process that may register with k is away from it. */
  function CallsAway(pc: Pc): nat {
    match pc
    case Start => 4
    case FoeOpenK => 3
    case FoeOpenL => 2
    case FoePost => 1
    case _ => 0
  }

  /** A leader that has taken its sample, and is at its loop. */
  predicate Sampled(s: State, p: nat, k: nat) {
    && p < |s.procs| && s.procs[p].pc.LeaderTest? && s.procs[p].pc.sample <= 1 && s.procs[p].k == k
  }

  /** While the leader stands at its loop, such a process can come to register with its K. */
  lemma {:induction false} ComesToRegister(s: State, p: nat, q: nat, k: nat) returns (sched: seq<nat>)
    requires Inv(s) && Sampled(s, p, k) && q < |s.procs| && q != p && May(s.procs[q], k)
    ensures Schedule(|s.procs|, sched)
    ensures var t := Run(s, sched); Inv(t) && Sampled(t, p, k) && Registered(t.procs[q], k)
    decreases CallsAway(s.procs[q].pc)
  {
    if Registered(s.procs[q], k) {
      sched := [];
    } else {
      OneCallCloser(s, p, q, k);
      var rest := ComesToRegister(Step(s, q), p, q, k);
      sched := [q] + rest;
      RunOne(s, q, rest);
    }
  }

  lemma OneCallCloser(s: State, p: nat, q: nat, k: nat)
    requires Inv(s) && Sampled(s, p, k) && q < |s.procs| && q != p && May(s.procs[q], k) && !Registered(s.procs[q], k)
    ensures var t := Step(s, q);
      Inv(t) && Sampled(t, p, k) && May(t.procs[q], k) && CallsAway(t.procs[q].pc) < CallsAway(s.procs[q].pc)
  {
    StepKeepsInv(s, q);
    assert ProcOk(s.procs[p], s.kObjs, s.lObjs, s.nameK);
    assert ProcOk(s.procs[q], s.kObjs, s.lObjs, s.nameK);
  }

  /** From every reachable state in which the leader is about to sample: it can be gone while a foe of its K has
      not called wait, if and only if at most one foe is registered and some other process is registered, or
      may still come to be. */
  lemma LeavesTooEarlyExactly(n: nat, s: State, p: nat)
    requires Reachable(n, s) && p < n && s.procs[p].pc == LeaderWork
    ensures var k := s.procs[p].k;
      (exists sched, f: nat :: Schedule(n, sched) && LeftBehind(Run(Step(s, p), sched), p, f, k))
      <==> Foes(s.procs, k) <= 1 && exists q :: 0 <= q < n && q != p && May(s.procs[q], k)
  {
    var k, t := s.procs[p].k, Step(s, p);
    ReachableInv(n, s);
    SampleIsFoes(n, s, p);
    if sched, f: nat :| Schedule(n, sched) && LeftBehind(Run(t, sched), p, f, k) {
      LeavesExactly(t, p);
      SomebodyMay(s, p, sched, f);
    }
    if Foes(s.procs, k) <= 1 {
      if q :| 0 <= q < n && q != p && May(s.procs[q], k) {
        LeavesBehind(s, p, q);
      }
    }
  }

  lemma SomebodyMay(s: State, p: nat, sched: seq<nat>, f: nat)
    requires p < |s.procs| && s.procs[p].pc == LeaderWork && Schedule(|s.procs|, sched)
    requires LeftBehind(Run(Step(s, p), sched), p, f, s.procs[p].k)
    ensures exists q :: 0 <= q < |s.procs| && q != p && May(s.procs[q], s.procs[p].k)
  {
    var k := s.procs[p].k;
    if NobodyMay(s, k) {
      NobodyEverMay(s, [p] + sched, k);
      RunOne(s, p, sched);
    }
  }

  lemma LeavesBehind(s: State, p: nat, q: nat)
    requires Inv(s) && p < |s.procs| && q < |s.procs| && q != p && s.procs[p].pc == LeaderWork
    requires Foes(s.procs, s.procs[p].k) <= 1 && May(s.procs[q], s.procs[p].k)
    ensures exists sched, f: nat ::
      Schedule(|s.procs|, sched) && LeftBehind(Run(Step(s, p), sched), p, f, s.procs[p].k)
  {
    var k, t := s.procs[p].k, Step(s, p);
    StepKeepsInv(s, p);
    assert ProcOk(s.procs[p], s.kObjs, s.lObjs, s.nameK);
    var first := ComesToRegister(t, p, q, k);
    var second := LeavesAlone(Run(t, first), p);
    RunAppend(t, first, second);
    assert LeftBehind(Run(t, first + second), p, q, k);
  }

  /** The leader leaves while nobody else moves. */
  lemma LeavesAlone(t: State, p: nat) returns (sched: seq<nat>)
    requires Inv(t) && p < |t.procs| && t.procs[p].pc.LeaderTest? && t.procs[p].pc.sample <= 1
    ensures Schedule(|t.procs|, sched) && Run(t, sched).procs[p].pc.LeaderDone?
    ensures forall f :: 0 <= f < |t.procs| && f != p ==> Run(t, sched).procs[f] == t.procs[f]
  {
    LastSteps(t, p);
    sched := OneProcessMoves(t, p, 3);
    assert sched == [p] + ([p] + ([p] + []));
  }

  // ----- what the protocol does not give

  /** Two processes that share the first K and the first L. */
  function Two(a: Pc, b: Pc, kObjs: seq<nat>, lObjs: seq<nat>, nameK: Option<nat>, nameL: Option<nat>): State {
    State([Proc(a, 0, 0), Proc(b, 0, 0)], kObjs, lObjs, nameK, nameL)
  }

  lemma Next(s: State, p: nat, t: State)
    requires Reachable(2, s) && |s.procs| == 2 && p < 2 && Step(s, p) == t
    ensures Reachable(2, t)
  {
    ReachableStep(2, s, p);
  }

  /** A leader and a foe that has found its K. */
  lemma Joined()
    ensures Reachable(2, Two(LeaderOpenL, FoeOpenK, [0], [], Some(0), None))
  {
    ReachableStart(2);
    assert Init(2) == Two(Start, Start, [], [], None, None);
    Next(Two(Start, Start, [], [], None, None), 0, Two(LeaderOpenL, Start, [0], [], Some(0), None));
    Next(Two(LeaderOpenL, Start, [0], [], Some(0), None), 1, Two(LeaderOpenL, FoeOpenK, [0], [], Some(0), None));
  }

  lemma FoeRegisters()
    ensures Reachable(2, Two(LeaderOpenL, FoeWork, [1], [0], Some(0), Some(0)))
  {
    Joined();
    Next(Two(LeaderOpenL, FoeOpenK, [0], [], Some(0), None), 1, Two(LeaderOpenL, FoeOpenL, [0], [], Some(0), None));
    Next(Two(LeaderOpenL, FoeOpenL, [0], [], Some(0), None), 1, Two(LeaderOpenL, FoePost, [0], [0], Some(0), Some(0)));
    Next(Two(LeaderOpenL, FoePost, [0], [0], Some(0), Some(0)), 1, Two(LeaderOpenL, FoeWork, [1], [0], Some(0), Some(0)));
  }

  lemma LeaderTests(b: Pc, k: nat, l: seq<nat>, nameL: Option<nat>)
    requires k <= 1 && ((l == [] && nameL == None) || (l == [0] && nameL == Some(0)))
    requires Reachable(2, Two(LeaderOpenL, b, [k], l, Some(0), nameL))
    ensures Reachable(2, Two(LeaderUnlinkK(k), b, [k], [0], Some(0), Some(0)))
  {
    Next(Two(LeaderOpenL, b, [k], l, Some(0), nameL), 0, Two(LeaderWork, b, [k], [0], Some(0), Some(0)));
    Next(Two(LeaderWork, b, [k], [0], Some(0), Some(0)), 0, Two(LeaderTest(k), b, [k], [0], Some(0), Some(0)));
    Next(Two(LeaderTest(k), b, [k], [0], Some(0), Some(0)), 0, Two(LeaderUnlinkK(k), b, [k], [0], Some(0), Some(0)));
  }

  /** The leader can leave while a foe is still working, although it is meant to wait until all foes have
      called wait: a sample of 1 lets it go. */
  lemma LeavesTooEarly()
    ensures Reachable(2, Two(LeaderDone(1), FoeWork, [1], [0], None, None))
  {
    FoeRegisters();
    LeaderTests(FoeWork, 1, [0], Some(0));
    Next(Two(LeaderUnlinkK(1), FoeWork, [1], [0], Some(0), Some(0)), 0, Two(LeaderUnlinkL(1), FoeWork, [1], [0], None, Some(0)));
    Next(Two(LeaderUnlinkL(1), FoeWork, [1], [0], None, Some(0)), 0, Two(LeaderDone(1), FoeWork, [1], [0], None, None));
  }

  /** It can also sample 0 and leave, with a foe that registers only then. */
  lemma LeavesUnseen()
    ensures Reachable(2, Two(LeaderDone(0), FoeWork, [1], [0], None, None))
  {
    Joined();
    Next(Two(LeaderOpenL, FoeOpenK, [0], [], Some(0), None), 0, Two(LeaderWork, FoeOpenK, [0], [0], Some(0), Some(0)));
    Next(Two(LeaderWork, FoeOpenK, [0], [0], Some(0), Some(0)), 0, Two(LeaderTest(0), FoeOpenK, [0], [0], Some(0), Some(0)));
    Next(Two(LeaderTest(0), FoeOpenK, [0], [0], Some(0), Some(0)), 1, Two(LeaderTest(0), FoeOpenL, [0], [0], Some(0), Some(0)));
    UnseenRegisters();
  }

  /** The foe registers, and the leader goes. */
  lemma UnseenRegisters()
    requires Reachable(2, Two(LeaderTest(0), FoeOpenL, [0], [0], Some(0), Some(0)))
    ensures Reachable(2, Two(LeaderDone(0), FoeWork, [1], [0], None, None))
  {
    Next(Two(LeaderTest(0), FoeOpenL, [0], [0], Some(0), Some(0)), 1, Two(LeaderTest(0), FoePost, [0], [0], Some(0), Some(0)));
    Next(Two(LeaderTest(0), FoePost, [0], [0], Some(0), Some(0)), 1, Two(LeaderTest(0), FoeWork, [1], [0], Some(0), Some(0)));
    Next(Two(LeaderTest(0), FoeWork, [1], [0], Some(0), Some(0)), 0, Two(LeaderUnlinkK(0), FoeWork, [1], [0], Some(0), Some(0)));
    Next(Two(LeaderUnlinkK(0), FoeWork, [1], [0], Some(0), Some(0)), 0, Two(LeaderUnlinkL(0), FoeWork, [1], [0], None, Some(0)));
    Next(Two(LeaderUnlinkL(0), FoeWork, [1], [0], None, Some(0)), 0, Two(LeaderDone(0), FoeWork, [1], [0], None, None));
  }

  lemma ReachableStart(n: nat)
    ensures Reachable(n, Init(n))
  {
    assert Schedule(n, []) && Run(Init(n), []) == Init(n);
  }

  lemma ReachableStep(n: nat, s: State, p: nat)
    requires Reachable(n, s) && p < n
    ensures p < |s.procs| && Reachable(n, Step(s, p))
  {
    var sched :| Schedule(n, sched) && s == Run(Init(n), sched);
    RunSnoc(Init(n), sched, p);
  }

  lemma {:induction false} RunSnoc(s: State, sched: seq<nat>, p: nat)
    requires Schedule(|s.procs|, sched) && p < |s.procs|
    ensures Schedule(|s.procs|, sched + [p]) && Run(s, sched + [p]) == Step(Run(s, sched), p)
    decreases |sched|
  {
    if sched == [] {
      assert [] + [p] == [p] && [p][1..] == [];
    } else {
      RunSnoc(Step(s, sched[0]), sched[1..], p);
      assert (sched + [p])[1..] == sched[1..] + [p];
    }
  }

  // ----- a K without a leader

  /** The name K is taken, and no process is or will be its leader. */
  predicate Leaderless(s: State) {
    s.nameK.Some? && forall p :: 0 <= p < |s.procs| ==> !Active(s.procs[p].pc)
  }

  /** Such a state is never left: every process that comes later is a foe. */
  lemma {:induction false} LeaderlessForever(s: State, sched: seq<nat>)
    requires Leaderless(s) && Schedule(|s.procs|, sched)
    ensures Leaderless(Run(s, sched))
    decreases |sched|
  {
    if sched != [] {
      LeaderlessForever(Step(s, sched[0]), sched[1..]);
    }
  }

  /** The step of a foe that opens K after the leader has unlinked it: its sem_open creates a new K. */
  predicate Orphans(s: State, p: nat) {
    p < |s.procs| && s.procs[p].pc == FoeOpenK && s.nameK == None
  }

  /** That is the only step that leads to such a state. */
  lemma OrphansExactly(n: nat, s: State, p: nat)
    requires Reachable(n, s) && p < n && !Leaderless(s)
    ensures Leaderless(Step(s, p)) <==> Orphans(s, p)
  {
    ReachableInv(n, s);
    var t := Step(s, p);
    StepChanges(s, p);
    if s.nameK == None {
      forall q | 0 <= q < n
        ensures !Active(s.procs[q].pc)
      {
        assert ProcOk(s.procs[q], s.kObjs, s.lObjs, s.nameK);
      }
    } else {
      var q :| 0 <= q < n && Active(s.procs[q].pc);
      if q != p {
        assert t.procs[q] == s.procs[q];
      }
    }
  }

  /** A run ends with K taken and no leader, now or ever, if and only if some foe of it opened K while the
      name was unlinked. */
  lemma {:induction false} LeaderlessExactly(n: nat, sched: seq<nat>)
    requires Schedule(n, sched)
    ensures Leaderless(Run(Init(n), sched)) <==> Orphaned(n, sched)
    decreases |sched|
  {
    if sched != [] {
      var last := |sched| - 1;
      var before, p := sched[..last], sched[last];
      var s := Run(Init(n), before);
      assert Reachable(n, s);
      assert before + [p] == sched;
      RunSnoc(Init(n), before, p);
      LeaderlessExactly(n, before);
      OrphanedBefore(n, sched);
      if Leaderless(s) {
        StaysLeaderless(s, p);
      } else {
        OrphansExactly(n, s, p);
      }
    }
  }

  /** Some step of the run is one that orphans K. */
  predicate Orphaned(n: nat, sched: seq<nat>)
    requires Schedule(n, sched)
  {
    exists i :: 0 <= i < |sched| && Orphans(Run(Init(n), sched[..i]), sched[i])
  }

  lemma OrphanedBefore(n: nat, sched: seq<nat>)
    requires Schedule(n, sched) && sched != []
    ensures var last := |sched| - 1;
      Orphaned(n, sched) <==> Orphaned(n, sched[..last]) || Orphans(Run(Init(n), sched[..last]), sched[last])
  {
    var last := |sched| - 1;
    var before := sched[..last];
    assert forall i :: 0 <= i < last ==> before[..i] == sched[..i] && before[i] == sched[i];
    if i :| 0 <= i < |before| && Orphans(Run(Init(n), before[..i]), before[i]) {
      assert Orphans(Run(Init(n), sched[..i]), sched[i]);
    }
    if i :| 0 <= i < |sched| && Orphans(Run(Init(n), sched[..i]), sched[i]) {
      if i < last {
        assert Orphans(Run(Init(n), before[..i]), before[i]);
      }
    }
  }

  lemma StaysLeaderless(s: State, p: nat)
    requires Leaderless(s) && p < |s.procs|
    ensures Leaderless(Step(s, p))
  {
  }

  /** It is reached when a foe opens K after the leader has unlinked it: the foe's sem_open creates a
      new K, which nobody unlinks. */
  lemma LeaderlessReached()
    ensures exists s :: Reachable(2, s) && Leaderless(s)
  {
    Joined();
    LeaderTests(FoeOpenK, 0, [], None);
    Next(Two(LeaderUnlinkK(0), FoeOpenK, [0], [0], Some(0), Some(0)), 0, Two(LeaderUnlinkL(0), FoeOpenK, [0], [0], None, Some(0)));
    var s := Two(LeaderUnlinkL(0), FoeOpenK, [0], [0], None, Some(0));
    Next(s, 1, Step(s, 1));
    assert Leaderless(Step(s, 1));
  }
}
