/** What the lock-free BST guarantees in every run of any number of threads. */
module LockFreeTreeTheorems {
  import opened AtomicMap
  import BoxTree
  import opened F = LockFreeTree
  import opened LockFreeTreeProofs

  ghost predicate Execution(ss: seq<State>, who: seq<Tid>, cs: seq<Choice>) {
    && |ss| == |who| + 1 && |cs| == |who| && Init(ss[0])
    && forall i :: 0 <= i < |who| ==> who[i] in ss[i].pcs && Step(ss[i], who[i], cs[i]) == Next(ss[i + 1])
  }

  ghost function AbsOf(s: State): Spec
    requires Good(s)
  {
    F.Abs(s, TreeOf(s))
  }

  lemma TreeOfIs(s: State, tr: BoxTree.Tree)
    requires Inv(s, tr)
    ensures Good(s) && TreeOf(s) == tr
  {
    BoxTree.RepUnique(View(s), TreeOf(s), tr);
  }

  lemma InitInv(s: State)
    requires Init(s)
    ensures Inv(s, BoxTree.Leaf(s.root)) && F.Abs(s, BoxTree.Leaf(s.root)).m == map[]
    ensures forall t <- s.pcs :: F.Abs(s, BoxTree.Leaf(s.root)).threads[t] == Ready
  {
    forall c, d ensures Unshared(s, c, d) { }
  }

  /** In every state of a run the linked nodes form a sorted tree, and no thread can
      touch memory that is not allocated. */
  lemma {:induction false} RunGood(ss: seq<State>, who: seq<Tid>, cs: seq<Choice>, n: nat)
    requires Execution(ss, who, cs) && n < |ss|
    ensures Good(ss[n])
    ensures forall t, c :: t in ss[n].pcs ==> Step(ss[n], t, c) != Fault
  {
    if n == 0 {
      InitInv(ss[0]);
    } else {
      RunGood(ss, who, cs, n - 1);
      assert Step(ss[n - 1], who[n - 1], cs[n - 1]) == Next(ss[n - 1 + 1]);
      var tr' := StepRefines(ss[n - 1], who[n - 1], cs[n - 1], ss[n], TreeOf(ss[n - 1]));
    }
    forall t, c | t in ss[n].pcs ensures Step(ss[n], t, c) != Fault {
      NoFault(ss[n], t, c, TreeOf(ss[n]));
    }
  }

  /** A step as its client sees it. */
  function EventOf(pc: Pc, c: Choice): Event {
    match pc
    case Idle => Called(c.op)
    case Exit(_, r) => Returned(r)
    case _ => Internal
  }

  ghost function EventsOf(ss: seq<State>, who: seq<Tid>, cs: seq<Choice>): (es: seq<Event>)
    requires Execution(ss, who, cs)
    ensures |es| == |who|
  {
    seq(|who|, i requires 0 <= i < |who| && who[i] in ss[i].pcs => EventOf(ss[i].pcs[who[i]], cs[i]))
  }

  /** A call starts the operation that the client asks for, at once; this tree offers no
      delete. */
  lemma CallStarts(s: State, t: Tid, c: Choice)
    requires t in s.pcs && s.pcs[t].Idle?
    ensures Step(s, t, c).Next? <==> !c.op.Delete?
    ensures !c.op.Delete? ==> StatusOf(Step(s, t, c).state.pcs[t]) == Pending(c.op)
  {
  }

  lemma StepLabelled(s: State, t: Tid, c: Choice, s': State)
    requires Good(s) && Good(s') && t in s.pcs && Step(s, t, c) == Next(s') && SpecStep(AbsOf(s), AbsOf(s'), t)
    ensures Labelled(AbsOf(s), AbsOf(s'), t, EventOf(s.pcs[t], c))
  {
    assert AbsOf(s).threads[t] == StatusOf(s.pcs[t]) && AbsOf(s').threads[t] == StatusOf(s'.pcs[t]);
    if s.pcs[t].Idle? { CallStarts(s, t, c); }
  }

  lemma RunLabelled(ss: seq<State>, who: seq<Tid>, cs: seq<Choice>, run: seq<Spec>)
    requires Execution(ss, who, cs) && |run| == |ss| && SpecRun(run, who)
    requires forall i :: 0 <= i < |ss| ==> Good(ss[i]) && run[i] == AbsOf(ss[i])
    ensures LabelledRun(run, who, EventsOf(ss, who, cs))
  {
    forall i | 0 <= i < |who| ensures Labelled(run[i], run[i + 1], who[i], EventsOf(ss, who, cs)[i]) {
      assert Step(ss[i], who[i], cs[i]) == Next(ss[i + 1]) && SpecStep(run[i], run[i + 1], who[i]);
      StepLabelled(ss[i], who[i], cs[i], ss[i + 1]);
    }
  }

  /** Linearizability: every run is a run of the same atomic map that the locking BST
      implements. */
  lemma {:induction false} Linearizable(ss: seq<State>, who: seq<Tid>, cs: seq<Choice>) returns (run: seq<Spec>)
    requires Execution(ss, who, cs)
    ensures |run| == |ss| && SpecRun(run, who) && run[0].m == map[]
    ensures forall i :: 0 <= i < |ss| ==> Good(ss[i]) && run[i] == AbsOf(ss[i])
    ensures LabelledRun(run, who, EventsOf(ss, who, cs))
  {
    forall i | 0 <= i < |ss| ensures Good(ss[i]) { RunGood(ss, who, cs, i); }
    run := seq(|ss|, i requires 0 <= i < |ss| && Good(ss[i]) => AbsOf(ss[i]));
    InitInv(ss[0]);
    TreeOfIs(ss[0], BoxTree.Leaf(ss[0].root));
    forall i | 0 <= i < |who| ensures SpecStep(run[i], run[i + 1], who[i]) {
      var tr' := StepRefines(ss[i], who[i], cs[i], ss[i + 1], TreeOf(ss[i]));
      TreeOfIs(ss[i + 1], tr');
    }
    RunLabelled(ss, who, cs, run);
  }

  /** The sequential execution that explains a run, and the one effect of each call. */
  lemma SequentialWitness(ss: seq<State>, who: seq<Tid>, cs: seq<Choice>)
      returns (run: seq<Spec>, log: seq<Call>)
    requires Execution(ss, who, cs)
    ensures |run| == |ss| && forall i :: 0 <= i < |ss| ==> Good(ss[i]) && run[i] == AbsOf(ss[i])
    ensures log == Log(run, who) && Sequential(map[], log)
    ensures Replay(map[], log) == BoxTree.Contents(TreeOf(ss[|who|]))
    ensures forall t <- ss[0].pcs :: OncePerCall(run, who, t)
    ensures forall n: nat | n <= |who| :: ExplainedAt(run, who, EventsOf(ss, who, cs), log, n)
    ensures forall i: nat | i < |log| :: SeesLastWrite(log, i)
  {
    run := Linearizable(ss, who, cs);
    log := Log(run, who);
    RunIsSequential(run, who);
    forall t | t in ss[0].pcs ensures OncePerCall(run, who, t) {
      assert t in AbsOf(ss[0]).threads;
      OneEffectPerCall(run, who, t);
    }
    forall n: nat | n <= |who| ensures ExplainedAt(run, who, EventsOf(ss, who, cs), log, n) {
      RunExplained(run, who, EventsOf(ss, who, cs), n);
    }
    forall i: nat | i < |log| ensures SeesLastWrite(log, i) {
      LookupsSeeLastWrite(log, i);
    }
  }

  // ---- what a CAS does ----

  ghost predicate AtCas(s: State, t: Tid) {
    t in s.pcs && s.pcs[t].Cas? && s.pcs[t].temp in s.links
  }

  /** Thread `t` is about to win its CAS. */
  ghost predicate Wins(s: State, t: Tid) {
    AtCas(s, t) && s.links[s.pcs[t].temp] == s.pcs[t].ref
  }

  /** Thread `t` is about to lose it, and sees a node that is linked there now. */
  ghost predicate LosesRace(s: State, t: Tid) {
    AtCas(s, t) && s.links[s.pcs[t].temp] != s.pcs[t].ref && s.links[s.pcs[t].temp].To?
  }

  /** Thread `t` is about to lose it although the link is NULL: `*ref` is stale. */
  ghost predicate LosesStale(s: State, t: Tid) {
    AtCas(s, t) && s.links[s.pcs[t].temp] != s.pcs[t].ref && s.links[s.pcs[t].temp].Null?
  }

  /** A link that is not NULL never changes again, and its node is never freed or
      given another key; a winning CAS turns one NULL link into a new node. */
  lemma LinksOnlyFill(s: State, t: Tid, c: Choice, s': State)
    requires Good(s) && t in s.pcs && Step(s, t, c) == Next(s')
    ensures forall k <- s.links :: s.links[k].To? ==>
      && k in s'.links && s'.links[k] == s.links[k]
      && s.links[k].ptr in s.nodes && s.links[k].ptr in s'.nodes
      && s'.nodes[s.links[k].ptr] == s.nodes[s.links[k].ptr]
    ensures Wins(s, t) ==> s.pcs[t].ref.Null? && s'.links == s.links[s.pcs[t].temp := To(s.pcs[t].p)]
    ensures forall k <- s.links :: s.links[k].Null? && k in s'.links && s'.links[k].To? ==>
      Wins(s, t) && k == s.pcs[t].temp
  {
    var tr, pc := TreeOf(s), s.pcs[t];
    assert Knows(s, tr, pc);
    if Wins(s, t) { CasOnNull(s, t, tr); }
    forall k | k in s.links && s.links[k].To?
      ensures k in s'.links && s'.links[k] == s.links[k]
      ensures s.links[k].ptr in s.nodes && s.links[k].ptr in s'.nodes
      ensures s'.nodes[s.links[k].ptr] == s.nodes[s.links[k].ptr]
    {
      assert LinkMemory(s, k);
    }
  }

  /** Thread `t` is between a load that saw NULL in `temp` and its CAS on `temp`. */
  ghost predicate AboutToCas(pc: Pc) {
    pc.Build? || pc.Cas?
  }

  lemma TempAllocated(s: State, t: Tid)
    requires Good(s) && t in s.pcs && (AboutToCas(s.pcs[t]) || s.pcs[t].Load?)
    ensures s.pcs[t].temp in s.links
  {
    assert Knows(s, TreeOf(s), s.pcs[t]);
    PathCell(s, TreeOf(s), s.pcs[t].temp, s.pcs[t].op.key);
  }

  /** A thread's own step towards its CAS: it has just seen NULL, or only allocates. */
  lemma OwnStepToCas(s: State, t: Tid, c: Choice, s': State)
    requires t in s.pcs && Step(s, t, c) == Next(s') && t in s'.pcs && AboutToCas(s'.pcs[t])
    ensures (AboutToCas(s.pcs[t]) || s.pcs[t].Load?) && s'.pcs[t].temp == s.pcs[t].temp
    ensures s.pcs[t].Load? ==> s.pcs[t].temp in s.links && s.links[s.pcs[t].temp].Null? && s'.links == s.links
    ensures AboutToCas(s.pcs[t]) && s.pcs[t].temp in s.links ==>
      s.pcs[t].temp in s'.links && s'.links[s.pcs[t].temp] == s.links[s.pcs[t].temp]
  {
  }

  lemma OtherStep(s: State, t: Tid, v: Tid, c: Choice, s': State)
    requires t in s.pcs && v in s.pcs && v != t && Step(s, v, c) == Next(s')
    ensures t in s'.pcs && s'.pcs[t] == s.pcs[t]
  {
  }

  /** If `t` is about to CAS a cell that is filled, it was so before this step, or this
      step is another thread's winning CAS on that cell. */
  lemma StepToDoom(s: State, t: Tid, v: Tid, c: Choice, s': State)
    requires Good(s) && t in s.pcs && v in s.pcs && Step(s, v, c) == Next(s')
    requires t in s'.pcs && AboutToCas(s'.pcs[t]) && s'.pcs[t].temp in s'.links && s'.links[s'.pcs[t].temp].To?
    ensures AboutToCas(s.pcs[t]) && s.pcs[t].temp == s'.pcs[t].temp && s.pcs[t].temp in s.links
    ensures s.links[s.pcs[t].temp].Null? ==> v != t && Wins(s, v) && s.pcs[v].temp == s.pcs[t].temp
  {
    if v == t {
      OwnStepToCas(s, t, c, s');
      TempAllocated(s, t);
    } else {
      OtherStep(s, t, v, c, s');
      TempAllocated(s, t);
      LinksOnlyFill(s, v, c, s');
    }
  }

  /** Thread `t` is about to CAS the cell `temp`. */
  ghost predicate AimsAt(s: State, t: Tid, temp: Cell) {
    t in s.pcs && AboutToCas(s.pcs[t]) && s.pcs[t].temp == temp
  }

  /** One step back from a doomed CAS: it was doomed already, or is so by this step. */
  lemma DoomBefore(ss: seq<State>, who: seq<Tid>, cs: seq<Choice>, n: nat, t: Tid, temp: Cell)
    requires Execution(ss, who, cs) && n + 1 < |ss| && AimsAt(ss[n + 1], t, temp)
    requires temp in ss[n + 1].links && ss[n + 1].links[temp].To?
    ensures AimsAt(ss[n], t, temp) && temp in ss[n].links
    ensures ss[n].links[temp].Null? ==> who[n] != t && Wins(ss[n], who[n]) && ss[n].pcs[who[n]].temp == temp
  {
    RunGood(ss, who, cs, n);
    assert Step(ss[n], who[n], cs[n]) == Next(ss[n + 1]);
    OtherThreadStays(ss[n], t, who[n], cs[n], ss[n + 1]);
    StepToDoom(ss[n], t, who[n], cs[n], ss[n + 1]);
  }

  lemma OtherThreadStays(s: State, t: Tid, v: Tid, c: Choice, s': State)
    requires v in s.pcs && Step(s, v, c) == Next(s') && t in s'.pcs
    ensures t in s.pcs
  {
  }

  /** A lost race has a winner: after `t` loaded NULL from the cell, another thread
      linked a node there with a CAS of its own. */
  lemma {:induction false} RaceHasWinner(ss: seq<State>, who: seq<Tid>, cs: seq<Choice>, n: nat, t: Tid, temp: Cell)
      returns (k: nat)
    requires Execution(ss, who, cs) && n < |ss| && AimsAt(ss[n], t, temp)
    requires temp in ss[n].links && ss[n].links[temp].To?
    ensures k < n && who[k] != t && Wins(ss[k], who[k]) && ss[k].pcs[who[k]].temp == temp
    ensures forall i :: k <= i <= n ==> AimsAt(ss[i], t, temp)
  {
    NotAtStart(ss, who, cs, n, t);
    DoomBefore(ss, who, cs, n - 1, t, temp);
    if ss[n - 1].links[temp].To? {
      k := RaceHasWinner(ss, who, cs, n - 1, t, temp);
    } else {
      k := n - 1;
    }
  }

  lemma NotAtStart(ss: seq<State>, who: seq<Tid>, cs: seq<Choice>, n: nat, t: Tid)
    requires Execution(ss, who, cs) && n < |ss| && t in ss[n].pcs && AboutToCas(ss[n].pcs[t])
    ensures n > 0
  {
  }

  /** The three ways a CAS ends. It wins only on a NULL link with `*ref` NULL; it
      loses a race that another thread won since the load; or it loses to a stale
      `*ref`, which the loss itself resets to NULL. */
  lemma CasOutcomes(ss: seq<State>, who: seq<Tid>, cs: seq<Choice>, n: nat)
    requires Execution(ss, who, cs) && n < |who| && AtCas(ss[n], who[n])
    ensures Wins(ss[n], who[n]) ==>
      ss[n].pcs[who[n]].ref.Null? && ss[n].links[ss[n].pcs[who[n]].temp].Null?
    ensures LosesRace(ss[n], who[n]) ==> exists k ::
      0 <= k < n && who[k] != who[n] && Wins(ss[k], who[k])
      && ss[k].pcs[who[k]].temp == ss[n].pcs[who[n]].temp
    ensures LosesStale(ss[n], who[n]) ==>
      ss[n].pcs[who[n]].ref.To? && ss[n + 1].pcs[who[n]].Undo? && ss[n + 1].pcs[who[n]].ref.Null?
    ensures Wins(ss[n], who[n]) || LosesRace(ss[n], who[n]) || LosesStale(ss[n], who[n])
  {
    RunGood(ss, who, cs, n);
    assert Step(ss[n], who[n], cs[n]) == Next(ss[n + 1]);
    LinksOnlyFill(ss[n], who[n], cs[n], ss[n + 1]);
    if LosesRace(ss[n], who[n]) {
      var k := RaceHasWinner(ss, who, cs, n, who[n], ss[n].pcs[who[n]].temp);
    }
  }

  // ---- failed CASes are paid for by successful ones ----

  ghost function CountRaces(ss: seq<State>, who: seq<Tid>, n: nat, t: Tid): nat
    requires n <= |who| < |ss|
  {
    if n == 0 then 0
    else CountRaces(ss, who, n - 1, t) + if who[n - 1] == t && LosesRace(ss[n - 1], t) then 1 else 0
  }

  ghost function CountStale(ss: seq<State>, who: seq<Tid>, n: nat, t: Tid): nat
    requires n <= |who| < |ss|
  {
    if n == 0 then 0
    else CountStale(ss, who, n - 1, t) + if who[n - 1] == t && LosesStale(ss[n - 1], t) then 1 else 0
  }

  /** CASes won by threads other than `t`. */
  ghost function CountWinsOfOthers(ss: seq<State>, who: seq<Tid>, n: nat, t: Tid): nat
    requires n <= |who| < |ss|
  {
    if n == 0 then 0
    else CountWinsOfOthers(ss, who, n - 1, t) + if who[n - 1] != t && Wins(ss[n - 1], who[n - 1]) then 1 else 0
  }

  /** Whether `*ref` holds a stale pointer. */
  ghost function Stale(pc: Pc): nat {
    if (pc.Load? || pc.Branch? || pc.Build? || pc.Cas? || pc.Undo?) && pc.ref.To? then 1 else 0
  }

  /** Whether `t` is already bound to lose its next CAS to another thread's. */
  ghost function Doomed(s: State, t: Tid): nat {
    if t in s.pcs && AboutToCas(s.pcs[t]) && s.pcs[t].temp in s.links && s.links[s.pcs[t].temp].To? then 1 else 0
  }

  /** `*ref` becomes stale only in a lost race, and stops being stale in a stale loss. */
  lemma StepStale(s: State, t: Tid, c: Choice, s': State)
    requires t in s.pcs && Step(s, t, c) == Next(s')
    ensures t in s'.pcs
    ensures (if LosesStale(s, t) then 1 else 0) + Stale(s'.pcs[t])
         <= Stale(s.pcs[t]) + if LosesRace(s, t) then 1 else 0
    ensures LosesRace(s, t) ==> Doomed(s, t) == 1 && Doomed(s', t) == 0
  {
  }

  /** One step of thread `v`, as the counts of thread `t` see it. */
  lemma StepPays(s: State, t: Tid, v: Tid, c: Choice, s': State)
    requires Good(s) && t in s.pcs && v in s.pcs && Step(s, v, c) == Next(s')
    ensures t in s'.pcs
    ensures (if v == t && LosesStale(s, t) then 1 else 0) + Stale(s'.pcs[t])
         <= Stale(s.pcs[t]) + if v == t && LosesRace(s, t) then 1 else 0
    ensures (if v == t && LosesRace(s, t) then 1 else 0) + Doomed(s', t)
         <= Doomed(s, t) + if v != t && Wins(s, v) then 1 else 0
  {
    if v == t { StepStale(s, t, c, s'); } else { OtherStep(s, t, v, c, s'); }
    if Doomed(s', t) == 1 { StepToDoom(s, t, v, c, s'); }
  }

  lemma {:induction false} FailuresPaid(ss: seq<State>, who: seq<Tid>, cs: seq<Choice>, n: nat, t: Tid)
    requires Execution(ss, who, cs) && n < |ss| && t in ss[0].pcs
    ensures t in ss[n].pcs
    ensures CountStale(ss, who, n, t) + Stale(ss[n].pcs[t]) <= CountRaces(ss, who, n, t)
    ensures CountRaces(ss, who, n, t) + Doomed(ss[n], t) <= CountWinsOfOthers(ss, who, n, t)
  {
    if n > 0 {
      FailuresPaid(ss, who, cs, n - 1, t);
      RunGood(ss, who, cs, n - 1);
      assert Step(ss[n - 1], who[n - 1], cs[n - 1]) == Next(ss[n - 1 + 1]);
      StepPays(ss[n - 1], t, who[n - 1], cs[n - 1], ss[n]);
    }
  }

  /** In every run, the CASes a thread loses are at most twice the CASes that the other
      threads win. With nobody else inserting, no CAS ever fails. */
  lemma FewFailures(ss: seq<State>, who: seq<Tid>, cs: seq<Choice>, t: Tid)
    requires Execution(ss, who, cs) && t in ss[0].pcs
    ensures CountRaces(ss, who, |who|, t) + CountStale(ss, who, |who|, t)
         <= 2 * CountWinsOfOthers(ss, who, |who|, t)
  {
    FailuresPaid(ss, who, cs, |who|, t);
  }
}
