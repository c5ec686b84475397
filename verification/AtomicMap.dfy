/** The atomic map that both concurrent trees are proved to implement.
    A thread invokes an operation, the operation takes effect in one indivisible
    step, and the thread returns the result fixed by that step. */
module AtomicMap {

  type Key = int
  type Tid = nat

  /** A `void *` value; 0 stands for NULL, which `lookup` returns for a missing key. */
  type Value = nat
  const NULL: Value := 0

  datatype Op =
    | Insert(key: Key, value: Value)
    | Lookup(key: Key)
    | Delete(key: Key)

  /** Where a thread stands: between calls, called but without effect yet, or
      already in effect and about to return `result`. */
  datatype Status = Ready | Pending(op: Op) | Done(op: Op, result: Value)

  datatype Spec = Spec(m: map<Key, Value>, threads: map<Tid, Status>)

  function Effect(m: map<Key, Value>, op: Op): map<Key, Value> {
    match op
    case Insert(k, v) => m[k := v]
    case Lookup(_) => m
    case Delete(k) => m - {k}
  }

  function Answer(m: map<Key, Value>, op: Op): Value {
    match op
    case Insert(_, _) => NULL
    case Lookup(k) => if k in m then m[k] else NULL
    case Delete(_) => NULL
  }

  ghost predicate Invokes(a: Spec, a': Spec, t: Tid) {
    && t in a.threads && a.threads[t].Ready?
    && exists op :: a' == a.(threads := a.threads[t := Pending(op)])
  }

  ghost predicate Commits(a: Spec, a': Spec, t: Tid) {
    && t in a.threads && a.threads[t].Pending?
    && var op := a.threads[t].op;
       a' == Spec(Effect(a.m, op), a.threads[t := Done(op, Answer(a.m, op))])
  }

  ghost predicate Returns(a: Spec, a': Spec, t: Tid) {
    && t in a.threads && a.threads[t].Done?
    && a' == a.(threads := a.threads[t := Ready])
  }

  /** One step of thread `t`, or no visible change at all. */
  ghost predicate SpecStep(a: Spec, a': Spec, t: Tid) {
    a' == a || Invokes(a, a', t) || Commits(a, a', t) || Returns(a, a', t)
  }

  ghost predicate SpecRun(run: seq<Spec>, who: seq<Tid>) {
    && |run| == |who| + 1
    && (forall t <- run[0].threads :: run[0].threads[t].Ready?)
    && forall i :: 0 <= i < |who| ==> SpecStep(run[i], run[i + 1], who[i])
  }

  // ---- what a run of the atomic map means ----

  datatype Call = Call(tid: Tid, op: Op, result: Value)

  /** The operations that took effect, in the order in which they did. */
  ghost function Log(run: seq<Spec>, who: seq<Tid>): seq<Call>
    requires |run| == |who| + 1
  {
    if who == [] then []
    else
      var n := |who| - 1;
      var before := Log(run[..|run| - 1], who[..n]);
      if Commits(run[n], run[n + 1], who[n]) then
        var op := run[n].threads[who[n]].op;
        before + [Call(who[n], op, run[n + 1].threads[who[n]].result)]
      else before
  }

  /** Runs a log on a plain map, one operation after the other. */
  function Replay(m: map<Key, Value>, log: seq<Call>): map<Key, Value> {
    if log == [] then m
    else Effect(Replay(m, log[..|log| - 1]), log[|log| - 1].op)
  }

  /** Every logged result is the one the plain map gives at that point. */
  ghost predicate Sequential(m: map<Key, Value>, log: seq<Call>) {
    forall i :: 0 <= i < |log| ==> log[i].result == Answer(Replay(m, log[..i]), log[i].op)
  }

  /** The log is a sequential execution that explains the run: replaying it gives
      the final map, and every operation got the answer it would get there. */
  lemma {:induction false} RunIsSequential(run: seq<Spec>, who: seq<Tid>)
    requires SpecRun(run, who)
    ensures Replay(run[0].m, Log(run, who)) == run[|who|].m
    ensures Sequential(run[0].m, Log(run, who))
  {
    if who != [] {
      var n := |who| - 1;
      var run0, who0 := run[..|run| - 1], who[..n];
      RunIsSequential(run0, who0);
      var before, log := Log(run0, who0), Log(run, who);
      if Commits(run[n], run[n + 1], who[n]) {
        assert log[..|log| - 1] == before;
        forall i | 0 <= i < |log|
          ensures log[i].result == Answer(Replay(run[0].m, log[..i]), log[i].op)
        {
          assert log[..i] == before[..i];
          if i == |before| { assert before[..i] == before; }
        }
      }
    }
  }

  ghost function CountInvokes(run: seq<Spec>, who: seq<Tid>, t: Tid): nat
    requires |run| == |who| + 1
  {
    if who == [] then 0
    else
      var n := |who| - 1;
      CountInvokes(run[..n + 1], who[..n], t) + if who[n] == t && Invokes(run[n], run[n + 1], t) then 1 else 0
  }

  ghost function CountCommits(run: seq<Spec>, who: seq<Tid>, t: Tid): nat
    requires |run| == |who| + 1
  {
    if who == [] then 0
    else
      var n := |who| - 1;
      CountCommits(run[..n + 1], who[..n], t) + if who[n] == t && Commits(run[n], run[n + 1], t) then 1 else 0
  }

  ghost function CountReturns(run: seq<Spec>, who: seq<Tid>, t: Tid): nat
    requires |run| == |who| + 1
  {
    if who == [] then 0
    else
      var n := |who| - 1;
      CountReturns(run[..n + 1], who[..n], t) + if who[n] == t && Returns(run[n], run[n + 1], t) then 1 else 0
  }

  /** The calls of `t` that have begun, have taken effect and have returned differ by
      no more than the one under way, and only as its status says. */
  ghost predicate OncePerCall(run: seq<Spec>, who: seq<Tid>, t: Tid)
    requires |run| == |who| + 1
  {
    && t in run[|who|].threads
    && var status := run[|who|].threads[t];
       && CountInvokes(run, who, t) == CountCommits(run, who, t) + (if status.Pending? then 1 else 0)
       && CountCommits(run, who, t) == CountReturns(run, who, t) + (if status.Done? then 1 else 0)
  }

  /** Every call takes effect exactly once, between its invocation and its return. */
  lemma {:induction false} OneEffectPerCall(run: seq<Spec>, who: seq<Tid>, t: Tid)
    requires SpecRun(run, who)
    requires t in run[0].threads
    ensures OncePerCall(run, who, t)
  {
    if who != [] {
      var n := |who| - 1;
      OneEffectPerCall(run[..n + 1], who[..n], t);
      assert SpecStep(run[n], run[n + 1], who[n]);
    }
  }

  // ---- what the clients see ----

  /** A step as a client sees it: its call, its return, or nothing. */
  datatype Event = Called(op: Op) | Returned(result: Value) | Internal

  ghost predicate Labelled(a: Spec, a': Spec, t: Tid, e: Event) {
    && t in a.threads
    && match e
       case Called(op) => a.threads[t].Ready? && a' == a.(threads := a.threads[t := Pending(op)])
       case Returned(r) => Returns(a, a', t) && a.threads[t].result == r
       case Internal => a' == a || Commits(a, a', t)
  }

  ghost predicate LabelledRun(run: seq<Spec>, who: seq<Tid>, es: seq<Event>) {
    && |run| == |who| + 1 && |es| == |who|
    && (forall t <- run[0].threads :: run[0].threads[t].Ready?)
    && forall i :: 0 <= i < |who| ==> Labelled(run[i], run[i + 1], who[i], es[i])
  }

  /** The operations that `t` has called, in call order. */
  function CallsOf(who: seq<Tid>, es: seq<Event>, t: Tid): seq<Op>
    requires |who| == |es|
  {
    if who == [] then []
    else
      var n := |who| - 1;
      CallsOf(who[..n], es[..n], t) + if who[n] == t && es[n].Called? then [es[n].op] else []
  }

  /** The results that have been returned to `t`, in call order. */
  function ResultsOf(who: seq<Tid>, es: seq<Event>, t: Tid): seq<Value>
    requires |who| == |es|
  {
    if who == [] then []
    else
      var n := |who| - 1;
      ResultsOf(who[..n], es[..n], t) + if who[n] == t && es[n].Returned? then [es[n].result] else []
  }

  /** The operations of `t` in a log, and their results. */
  function OpsBy(log: seq<Call>, t: Tid): seq<Op> {
    if log == [] then []
    else OpsBy(log[..|log| - 1], t) + if log[|log| - 1].tid == t then [log[|log| - 1].op] else []
  }

  function AnswersBy(log: seq<Call>, t: Tid): seq<Value> {
    if log == [] then []
    else AnswersBy(log[..|log| - 1], t) + if log[|log| - 1].tid == t then [log[|log| - 1].result] else []
  }

  /** The log has the calls of `t`, each once and in call order, but for one without effect
      yet, and its answers are the results returned to `t`, but for one about to be. */
  ghost predicate Explains(log: seq<Call>, who: seq<Tid>, es: seq<Event>, t: Tid, status: Status)
    requires |who| == |es|
  {
    && CallsOf(who, es, t) == OpsBy(log, t) + (if status.Pending? then [status.op] else [])
    && AnswersBy(log, t) == ResultsOf(who, es, t) + (if status.Done? then [status.result] else [])
  }

  lemma {:induction false} CallsExplained(run: seq<Spec>, who: seq<Tid>, es: seq<Event>, t: Tid)
    requires LabelledRun(run, who, es) && t in run[0].threads
    ensures t in run[|who|].threads && Explains(Log(run, who), who, es, t, run[|who|].threads[t])
  {
    if who != [] {
      var n := |who| - 1;
      CallsExplained(run[..n + 1], who[..n], es[..n], t);
      assert Labelled(run[n], run[n + 1], who[n], es[n]);
      assert run[..|run| - 1] == run[..n + 1];
      ExplainsMore(Log(run[..n + 1], who[..n]), who, es, run[n], run[n + 1], t);
    }
  }

  lemma ExplainsMore(before: seq<Call>, who: seq<Tid>, es: seq<Event>, a: Spec, a': Spec, t: Tid)
    requires |who| == |es| > 0 && t in a.threads && Labelled(a, a', who[|who| - 1], es[|who| - 1])
    requires Explains(before, who[..|who| - 1], es[..|who| - 1], t, a.threads[t])
    ensures t in a'.threads
    ensures
      var u := who[|who| - 1];
      Explains(if Commits(a, a', u) then before + [Call(u, a.threads[u].op, a'.threads[u].result)] else before,
        who, es, t, a'.threads[t])
  {
    var u := who[|who| - 1];
    if Commits(a, a', u) {
      var call := Call(u, a.threads[u].op, a'.threads[u].result);
      assert (before + [call])[..|before|] == before;
    }
  }

  lemma {:induction false} LogGrows(run: seq<Spec>, who: seq<Tid>, n: nat)
    requires |run| == |who| + 1 && n <= |who|
    ensures Log(run[..n + 1], who[..n]) <= Log(run, who)
    decreases |who|
  {
    if n == |who| {
      assert run[..n + 1] == run && who[..n] == who;
    } else {
      var m := |who| - 1;
      LogGrows(run[..m + 1], who[..m], n);
      assert run[..m + 1][..n + 1] == run[..n + 1] && who[..m][..n] == who[..n];
      assert run[..|run| - 1] == run[..m + 1];
    }
  }

  /** At every moment of the run the log of that moment explains what each client has
      called and got back. It only ever grows at its end, so calls of which one returned
      before the other began are logged in that order. */
  ghost predicate ExplainedAt(run: seq<Spec>, who: seq<Tid>, es: seq<Event>, log: seq<Call>, n: nat)
    requires |run| == |who| + 1 && |es| == |who| && n <= |who|
  {
    && Log(run[..n + 1], who[..n]) <= log
    && forall t <- run[0].threads ::
         t in run[n].threads && Explains(Log(run[..n + 1], who[..n]), who[..n], es[..n], t, run[n].threads[t])
  }

  lemma RunExplained(run: seq<Spec>, who: seq<Tid>, es: seq<Event>, n: nat)
    requires LabelledRun(run, who, es) && n <= |who|
    ensures ExplainedAt(run, who, es, Log(run, who), n)
  {
    LogGrows(run, who, n);
    forall t | t in run[0].threads
      ensures t in run[n].threads && Explains(Log(run[..n + 1], who[..n]), who[..n], es[..n], t, run[n].threads[t])
    {
      CallsExplained(run[..n + 1], who[..n], es[..n], t);
    }
  }

  // ---- what a sequential log answers ----

  predicate Writes(op: Op, k: Key) {
    !op.Lookup? && op.key == k
  }

  /** Entry `j` is the last one before entry `i` that writes key `k`. */
  ghost predicate LastWrite(log: seq<Call>, i: nat, j: nat, k: Key) {
    j < i <= |log| && Writes(log[j].op, k) && forall l :: j < l < i ==> !Writes(log[l].op, k)
  }

  ghost predicate NeverWritten(log: seq<Call>, i: nat, k: Key)
    requires i <= |log|
  {
    forall l :: 0 <= l < i ==> !Writes(log[l].op, k)
  }

  /** What a write leaves in the map. */
  ghost predicate Shows(m: map<Key, Value>, op: Op) {
    match op
    case Insert(k, v) => k in m && m[k] == v
    case Delete(k) => k !in m
    case Lookup(_) => true
  }

  /** The map after `i` entries has exactly the keys whose last write is an insert, with
      the value inserted. */
  lemma {:induction false} ReplayShows(log: seq<Call>, i: nat, j: nat, k: Key)
    requires LastWrite(log, i, j, k)
    ensures Shows(Replay(map[], log[..i]), log[j].op)
    decreases i
  {
    assert log[..i][..i - 1] == log[..i - 1];
    if j < i - 1 { ReplayShows(log, i - 1, j, k); }
  }

  lemma {:induction false} ReplayWithout(log: seq<Call>, i: nat, k: Key)
    requires i <= |log| && NeverWritten(log, i, k)
    ensures k !in Replay(map[], log[..i])
    decreases i
  {
    if i > 0 {
      assert log[..i][..i - 1] == log[..i - 1];
      ReplayWithout(log, i - 1, k);
    }
  }

  /** A lookup answers the value of the last insert of its key before it in the log, and
      NULL if that key was deleted since or never inserted. */
  ghost predicate SeesLastWrite(log: seq<Call>, i: nat)
    requires i < |log|
  {
    log[i].op.Lookup? ==>
      && (NeverWritten(log, i, log[i].op.key) ==> log[i].result == NULL)
      && forall j: nat :: LastWrite(log, i, j, log[i].op.key) ==>
           log[i].result == if log[j].op.Insert? then log[j].op.value else NULL
  }

  lemma LookupsSeeLastWrite(log: seq<Call>, i: nat)
    requires Sequential(map[], log) && i < |log|
    ensures SeesLastWrite(log, i)
  {
    if log[i].op.Lookup? {
      var k := log[i].op.key;
      if NeverWritten(log, i, k) { ReplayWithout(log, i, k); }
      forall j: nat | LastWrite(log, i, j, k) ensures Shows(Replay(map[], log[..i]), log[j].op) {
        ReplayShows(log, i, j, k);
      }
    }
  }
}
