/** What a top-level `revert` does, proved about the functions of
    `SchedulerRevert`: which Tasks have their revert action invoked, how often,
    in what order, and which flags are cleared. */
module SchedulerRevertFacts {
  import opened Seqs
  import opened SchedulerRegistry
  import opened SchedulerExecute
  import opened SchedulerExecuteFacts
  import opened SchedulerRevert

  /** The Tasks the continuations of `s` wake, in order. */
  function Flat(r: Registry, s: seq<TaskId>): seq<TaskId>
    requires Wf(r)
  {
    if s == [] then [] else Children(r, s[0]) + Flat(r, s[1..])
  }

  lemma {:induction false} FlatAppend(r: Registry, a: seq<TaskId>, b: seq<TaskId>)
    requires Wf(r)
    ensures Flat(r, a + b) == Flat(r, a) + Flat(r, b)
  {
    if a == [] {
      assert a + b == b;
    } else {
      assert (a + b)[1..] == a[1..] + b;
      FlatAppend(r, a[1..], b);
    }
  }

  /** Running one more Task appends its children. */
  lemma FlatSnoc(r: Registry, s: seq<TaskId>, u: TaskId)
    requires Wf(r)
    ensures Flat(r, s + [u]) == Flat(r, s) + Children(r, u)
  {
    var c := Children(r, u);
    assert [u][1..] == [];
    assert Flat(r, [u]) == c + Flat(r, []);
    assert c + [] == c;
    FlatAppend(r, s, [u]);
  }

  /** A Task one of `s` wakes is one `Flat` lists. */
  lemma {:induction false} FlatMember(r: Registry, s: seq<TaskId>, i: nat, x: TaskId)
    requires Wf(r) && i < |s| && x in Children(r, s[i])
    ensures x in Flat(r, s)
  {
    if i > 0 {
      assert s[1..][i - 1] == s[i];
      FlatMember(r, s[1..], i - 1, x);
    }
  }

  /** Every Task after the first was woken by an earlier one. */
  ghost predicate Woken(r: Registry, log: seq<TaskId>)
    requires Wf(r)
  {
    forall j :: 0 < j < |log| ==> log[j] in Flat(r, log[..j])
  }

  /** One continuation keeps the work-list its head followed by what the
      continuations run so far woke. */
  lemma StepFlat(r: Registry, log: seq<TaskId>, k: nat)
    requires Wf(r) && 0 < |log| && k < |log| && log == [log[0]] + Flat(r, log[..k])
    ensures var log' := log + Children(r, log[k]); log' == [log'[0]] + Flat(r, log'[..k + 1])
  {
    var u := log[k];
    var log' := log + Children(r, u);
    FlatSnoc(r, log[..k], u);
    assert log'[..k + 1] == log[..k] + [u];
    assert log' == [log[0]] + (Flat(r, log[..k]) + Children(r, u));
  }

  /** One continuation appends Tasks woken by `log[k]`. */
  lemma StepWoken(r: Registry, log: seq<TaskId>, k: nat)
    requires Wf(r) && k < |log| && Woken(r, log)
    ensures Woken(r, log + Children(r, log[k]))
  {
    var w := Children(r, log[k]);
    var log' := log + w;
    forall j | 0 < j < |log'| ensures log'[j] in Flat(r, log'[..j]) {
      if j < |log| {
        assert log'[..j] == log[..j];
      } else {
        assert log'[j] == w[j - |log|];
        assert log'[..j][k] == log[k];
        FlatMember(r, log'[..j], k, log'[j]);
      }
    }
  }

  /** The work-list only grows, and its length is its cursor plus the weight
      still to run. */
  lemma {:induction false} RevertLogGrows(r: Registry, rank: string -> nat, log: seq<TaskId>, k: nat)
    requires Wf(r) && Ranked(r, rank) && k <= |log|
    requires forall j :: 0 <= j < |log| ==> Live(r, rank, log[j])
    ensures var ran := RevertLog(r, rank, log, k);
      && log <= ran
      && |ran| == k + Total(r, rank, log[k..])
      && (forall j :: 0 <= j < |ran| ==> Live(r, rank, ran[j]))
    decreases Total(r, rank, log[k..])
  {
    if k == |log| {
      assert log[k..] == [];
    } else {
      StepWeight(r, rank, log, k);
      RevertLogGrows(r, rank, log + Children(r, log[k]), k + 1);
    }
  }

  /** Once the first `k` continuations have run, the work-list is its head
      followed by what they woke; at the end, by what all of them woke. */
  lemma {:induction false} RevertLogFlat(r: Registry, rank: string -> nat, log: seq<TaskId>, k: nat)
    requires Wf(r) && Ranked(r, rank) && 0 < |log| && k <= |log|
    requires forall j :: 0 <= j < |log| ==> Live(r, rank, log[j])
    requires log == [log[0]] + Flat(r, log[..k])
    ensures var ran := RevertLog(r, rank, log, k); ran == [log[0]] + Flat(r, ran)
    decreases Total(r, rank, log[k..])
  {
    if k == |log| {
      assert log[..k] == log;
    } else {
      StepWeight(r, rank, log, k);
      StepFlat(r, log, k);
      RevertLogFlat(r, rank, log + Children(r, log[k]), k + 1);
    }
  }

  lemma {:induction false} RevertLogWoken(r: Registry, rank: string -> nat, log: seq<TaskId>, k: nat)
    requires Wf(r) && Ranked(r, rank) && k <= |log|
    requires forall j :: 0 <= j < |log| ==> Live(r, rank, log[j])
    requires Woken(r, log)
    ensures Woken(r, RevertLog(r, rank, log, k))
    decreases Total(r, rank, log[k..])
  {
    if k < |log| {
      StepWeight(r, rank, log, k);
      StepWoken(r, log, k);
      RevertLogWoken(r, rank, log + Children(r, log[k]), k + 1);
    }
  }

  /** The three facts above for the work-list of a top-level call. */
  lemma RevertLogShape(r: Registry, rank: string -> nat, root: TaskId)
    requires Wf(r) && Ranked(r, rank) && Live(r, rank, root)
    ensures var ran := RevertLog(r, rank, [root], 0);
      && [root] <= ran
      && |ran| == Total(r, rank, [root])
      && (forall j :: 0 <= j < |ran| ==> Live(r, rank, ran[j]))
      && ran == [root] + Flat(r, ran)
      && Woken(r, ran)
  {
    assert [root][..0] == [];
    assert [root][0..] == [root];
    RevertLogGrows(r, rank, [root], 0);
    RevertLogFlat(r, rank, [root], 0);
    RevertLogWoken(r, rank, [root], 0);
  }

  /** The work-list does not depend on the rank, which only bounds it. */
  lemma {:induction false} RankIrrelevant(r: Registry, rank: string -> nat, rank': string -> nat,
                                          log: seq<TaskId>, k: nat)
    requires Wf(r) && Ranked(r, rank) && Ranked(r, rank') && k <= |log|
    requires forall j :: 0 <= j < |log| ==> Live(r, rank, log[j]) && Live(r, rank', log[j])
    ensures RevertLog(r, rank, log, k) == RevertLog(r, rank', log, k)
    decreases Total(r, rank, log[k..])
  {
    if k < |log| {
      StepWeight(r, rank, log, k);
      StepWeight(r, rank', log, k);
      RankIrrelevant(r, rank, rank', log + Children(r, log[k]), k + 1);
    }
  }

  /** Only the flags differ, so the same Tasks are woken. */
  lemma {:induction false} WakeSame(a: Registry, b: Registry, cs: seq<TaskId>)
    requires SameShape(a, b) && Wf(a) && Wf(b) && forall j :: 0 <= j < |cs| ==> cs[j] in a.tasks
    ensures Wake(a, cs) == Wake(b, cs)
  {
    if cs != [] {
      WakeSame(a, b, cs[1..]);
    }
  }

  lemma {:induction false} RevertLogSame(a: Registry, b: Registry, rank: string -> nat, log: seq<TaskId>, k: nat)
    requires SameShape(a, b) && Wf(a) && Wf(b) && Ranked(a, rank) && Ranked(b, rank) && k <= |log|
    requires forall j :: 0 <= j < |log| ==> Live(a, rank, log[j])
    ensures RevertLog(a, rank, log, k) == RevertLog(b, rank, log, k)
    decreases Total(a, rank, log[k..])
  {
    if k < |log| {
      StepWeight(a, rank, log, k);
      WakeSame(a, b, Slot(a.depend2item, a.tasks[log[k]].name));
      RevertLogSame(a, b, rank, log + Children(a, log[k]), k + 1);
    }
  }

  /** `revert(name)`: an unknown name invokes nothing and changes nothing.
      Otherwise the revert action of the named Task is invoked first, then
      those of the Tasks its continuations wake, so the Tasks invoked are the
      named one followed by the ones the continuations of all of them wake,
      each one woken by an earlier one; each is registered under its own name;
      both flags are cleared on exactly these Tasks, and nothing else changes. */
  lemma RevertRun(r: Registry, rank: string -> nat, name: string)
    requires Wf(r) && Ranked(r, rank) && (name in r.name2item ==> 0 < rank(name))
    ensures var (after, ran) := Revert(r, rank, name);
      && (ran == [] <==> name !in r.name2item)
      && (name !in r.name2item ==> after == r)
      && (name in r.name2item ==> ran[0] == r.name2item[name] && ran == [ran[0]] + Flat(r, ran) && Woken(r, ran))
      && (forall j :: 0 <= j < |ran| ==> Registered(r, ran[j]))
      && SameShape(r, after)
      && after.executed == r.executed - Elems(ran)
      && after.running == r.running - Elems(ran)
  {
    if name in r.name2item {
      RevertLogShape(r, rank, r.name2item[name]);
    }
  }

  /** `revert(name)` invokes `Weight(name)` revert actions: one per path from the
      name through registered dependants, with no check for Tasks already
      reverted. */
  lemma RevertCount(r: Registry, rank: string -> nat, name: string)
    requires Wf(r) && Ranked(r, rank) && name in r.name2item && 0 < rank(name)
    ensures |Revert(r, rank, name).1| == Weight(r, rank, name)
  {
    var root := r.name2item[name];
    RevertLogShape(r, rank, root);
    assert Total(r, rank, [root]) == Weight(r, rank, name) + Total(r, rank, []);
  }

  /** The cascade misses nothing: every registered dependant of a reverted Task
      is reverted too. */
  lemma RevertClosed(r: Registry, rank: string -> nat, name: string, i: nat, x: TaskId)
    requires Wf(r) && Ranked(r, rank) && (name in r.name2item ==> 0 < rank(name))
    requires var ran := Revert(r, rank, name).1; i < |ran| && x in Children(r, ran[i])
    ensures x in Revert(r, rank, name).1 && x !in Revert(r, rank, name).0.executed
  {
    RevertRun(r, rank, name);
    var ran := Revert(r, rank, name).1;
    FlatMember(r, ran, i, x);
  }

  /** `revert` keeps the invariant; a second `revert` of the same name invokes
      the same revert actions again and leaves the state as the first left it. */
  lemma RevertAgain(r: Registry, rank: string -> nat, name: string)
    requires Valid(r) && Ranked(r, rank) && (name in r.name2item ==> 0 < rank(name))
    ensures var after := Revert(r, rank, name).0;
      && Valid(after) && Ranked(after, rank)
      && Revert(after, rank, name) == (after, Revert(r, rank, name).1)
  {
    RevertRun(r, rank, name);
    var (after, ran) := Revert(r, rank, name);
    ShapeValid(r, after);
    if name in r.name2item {
      var root := r.name2item[name];
      RevertLogSame(r, after, rank, [root], 0);
      assert RevertLog(after, rank, [root], 0) == ran;
      assert Reset(after, Elems(ran)) == after;
    }
  }
}
