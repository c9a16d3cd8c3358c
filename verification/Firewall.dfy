/**
 * The one nftables table: a cached text, a lock, and a kernel that may or may
 * not have taken a ruleset whose apply was reported as failed
 * (bentod/src/firewall.rs; crates/network/src/apply.rs).
 *
 * There is one `Firewall` and it is the only writer of the table.
 */
module Firewall {
  import opened Options

  /** How an apply ends. A failed one may still have reached the kernel. */
  datatype Apply = Applied | Failed(landed: bool)

  function TableAfter(table: string, text: string, how: Apply): string {
    if how.Applied? || how.landed then text else table
  }

  class Kernel {
    var table: string

    method ApplyRuleset(text: string, how: Apply) returns (ok: bool)
      modifies this
      ensures ok <==> how.Applied?
      ensures table == TableAfter(old(table), text, how)
    {
      if how.Applied? || how.landed {
        table := text;
      }
      return how.Applied?;
    }
  }

  class Cache {
    var last: string

    constructor ()
      ensures last == ""
    {
      last := "";
    }

    /** One `reload` under the lock. `text` is `None` when building the ruleset failed. */
    method Reload(text: Option<string>, kernel: Kernel, how: Apply) returns (ok: bool)
      modifies this, kernel
      ensures ok <==> text.Some? && (text.value == old(last) || how.Applied?)
      ensures last == if ok then text.value else old(last)
      ensures kernel.table == if text.None? || text.value == old(last) then old(kernel.table)
                              else TableAfter(old(kernel.table), text.value, how)
    {
      if text.None? {
        return false;
      }
      if text.value == last {
        return true;
      }
      ok := kernel.ApplyRuleset(text.value, how);
      if ok {
        last := text.value;
      }
    }
  }

  /**
   * A skip that is wrong: the apply of the second ruleset reports a failure
   * but reached the kernel, and the database then changes back.
   */
  method SkipAfterLandedFailure() returns (ok: bool, cached: string, table: string)
    ensures ok && cached == "A" && table == "B"
  {
    var kernel := new Kernel;
    var cache := new Cache();
    var first := cache.Reload(Some("A"), kernel, Applied);
    var second := cache.Reload(Some("B"), kernel, Failed(true));
    ok := cache.Reload(Some("A"), kernel, Applied);
    cached, table := cache.last, kernel.table;
  }

  // ------------------------------------------------------------------
  // Any number of reloads, database changes at any moment
  // ------------------------------------------------------------------

  /** The tables the description is built from, each read on its own. */
  const TABLES: nat := 5

  type Content = seq<string>

  /** The reload that holds the lock. `called` is the database version when it was called. */
  datatype Holder = Holder(called: nat, seen: seq<nat>, text: Option<string>)

  /**
   * `history` is every database version, the last one current. `seen` are
   * the versions behind `last`. `suspect` says that an apply failed after
   * the last one that succeeded.
   */
  datatype System = System(history: seq<Content>, waiting: map<nat, nat>, holder: Option<Holder>, last: string,
                           seen: seq<nat>, table: string, suspect: bool)

  datatype Action =
    | Change(content: Content)
    | Call(task: nat)
    | Lock(task: nat)
    | ReadTable
    | Compare
    | ApplyEnds(how: Apply)
    | Abandon

  function Parts(history: seq<Content>, seen: seq<nat>): seq<string>
    requires |seen| <= TABLES
    requires forall i :: 0 <= i < |seen| ==> seen[i] < |history|
    requires forall v :: 0 <= v < |history| ==> |history[v]| == TABLES
  {
    seq(|seen|, i requires 0 <= i < |seen| => history[seen[i]][i])
  }

  predicate WellFormed(s: System) {
    && s.history != [] && (forall v :: 0 <= v < |s.history| ==> |s.history[v]| == TABLES)
    && (forall t :: t in s.waiting ==> s.waiting[t] < |s.history|)
    && |s.seen| <= TABLES && (forall i :: 0 <= i < |s.seen| ==> s.seen[i] < |s.history|)
    && (s.holder.Some? ==>
          && |s.holder.value.seen| <= TABLES && s.holder.value.called < |s.history|
          && (forall i :: 0 <= i < |s.holder.value.seen| ==> s.holder.value.seen[i] < |s.history|))
  }

  function Do(s: System, a: Action, render: seq<string> -> string): (s': System)
    requires WellFormed(s)
    ensures WellFormed(s')
  {
    match a
    case Change(content) =>
      if |content| != TABLES then s else s.(history := s.history + [content])
    case Call(task) =>
      if task in s.waiting then s else s.(waiting := s.waiting[task := |s.history| - 1])
    case Lock(task) =>
      if s.holder.Some? || task !in s.waiting then s
      else s.(holder := Some(Holder(s.waiting[task], [], None)), waiting := s.waiting - {task})
    case ReadTable =>
      if s.holder.None? || |s.holder.value.seen| == TABLES then s
      else s.(holder := Some(s.holder.value.(seen := s.holder.value.seen + [|s.history| - 1])))
    case Compare =>
      if s.holder.None? || |s.holder.value.seen| != TABLES || s.holder.value.text.Some? then s
      else
        var text := render(Parts(s.history, s.holder.value.seen));
        if text == s.last then s.(holder := None, seen := s.holder.value.seen)
        else s.(holder := Some(s.holder.value.(text := Some(text))))
    case ApplyEnds(how) =>
      if s.holder.None? || s.holder.value.text.None? then s
      else
        var text := s.holder.value.text.value;
        var t := s.(holder := None, table := TableAfter(s.table, text, how));
        if how.Applied? then t.(last := text, seen := s.holder.value.seen, suspect := false)
        else t.(suspect := true)
    case Abandon =>
      if s.holder.Some? && s.holder.value.text.Some? then s else s.(holder := None)
  }

  function Run(s: System, actions: seq<Action>, render: seq<string> -> string): (t: System)
    requires WellFormed(s)
    ensures WellFormed(t)
    decreases |actions|
  {
    if actions == [] then s
    else Do(Run(s, actions[..|actions| - 1], render), actions[|actions| - 1], render)
  }

  /** A process that has just started, over any database and any table left in the kernel. */
  predicate Initial(s: System) {
    WellFormed(s) && s.waiting == map[] && s.holder.None? && s.last == "" && s.seen == [] && !s.suspect
  }

  /** A rendered ruleset always has text. */
  ghost predicate RendersText(render: seq<string> -> string) {
    forall parts: seq<string> :: render(parts) != ""
  }

  predicate InOrder(seen: seq<nat>) {
    forall i, j :: 0 <= i < j < |seen| ==> seen[i] <= seen[j]
  }

  predicate AllAtLeast(seen: seq<nat>, floor: seq<nat>) {
    forall i, j :: 0 <= i < |seen| && 0 <= j < |floor| ==> floor[j] <= seen[i]
  }

  ghost predicate Inv(s: System, render: seq<string> -> string) {
    && WellFormed(s)
    && InOrder(s.seen)
    && (s.last != "" ==> |s.seen| == TABLES && s.last == render(Parts(s.history, s.seen)))
    && (s.last != "" && !s.suspect ==> s.table == s.last)
    && (s.holder.Some? ==>
          var h := s.holder.value;
          && InOrder(h.seen) && AllAtLeast(h.seen, s.seen)
          && (forall i :: 0 <= i < |h.seen| ==> h.called <= h.seen[i])
          && (h.text.Some? ==>
                |h.seen| == TABLES && h.text.value == render(Parts(s.history, h.seen)) && h.text.value != s.last))
  }

  lemma PartsStay(history: seq<Content>, content: Content, seen: seq<nat>)
    requires |seen| <= TABLES && |content| == TABLES
    requires forall i :: 0 <= i < |seen| ==> seen[i] < |history|
    requires forall v :: 0 <= v < |history| ==> |history[v]| == TABLES
    ensures Parts(history + [content], seen) == Parts(history, seen)
  {
  }

  lemma ChangeKeepsInv(s: System, content: Content, render: seq<string> -> string)
    requires Inv(s, render) && |content| == TABLES
    ensures Inv(Do(s, Change(content), render), render)
  {
    PartsStay(s.history, content, s.seen);
    if s.holder.Some? {
      PartsStay(s.history, content, s.holder.value.seen);
    }
  }

  lemma ReadKeepsInv(s: System, render: seq<string> -> string)
    requires Inv(s, render) && s.holder.Some? && |s.holder.value.seen| < TABLES
    ensures Inv(Do(s, ReadTable, render), render)
  {
    var seen := s.holder.value.seen + [|s.history| - 1];
    assert forall i :: 0 <= i < |s.holder.value.seen| ==> seen[i] == s.holder.value.seen[i];
  }

  lemma EndKeepsInv(s: System, a: Action, render: seq<string> -> string)
    requires Inv(s, render) && RendersText(render) && (a.Compare? || a.ApplyEnds?)
    ensures Inv(Do(s, a, render), render)
  {
  }

  lemma StepKeepsInv(s: System, a: Action, render: seq<string> -> string)
    requires Inv(s, render) && RendersText(render)
    ensures Inv(Do(s, a, render), render)
  {
    match a {
      case Change(content) => if |content| == TABLES { ChangeKeepsInv(s, content, render); }
      case ReadTable => if s.holder.Some? && |s.holder.value.seen| < TABLES { ReadKeepsInv(s, render); }
      case Compare => EndKeepsInv(s, a, render);
      case ApplyEnds(_) => EndKeepsInv(s, a, render);
      case _ =>
    }
  }

  lemma {:induction false} RunKeepsInv(s: System, actions: seq<Action>, render: seq<string> -> string)
    requires Initial(s) && RendersText(render)
    ensures Inv(Run(s, actions, render), render)
    decreases |actions|
  {
    if actions != [] {
      RunKeepsInv(s, actions[..|actions| - 1], render);
      StepKeepsInv(Run(s, actions[..|actions| - 1], render), actions[|actions| - 1], render);
    }
  }

  /** This step ends the running reload with success. */
  predicate Succeeds(s: System, a: Action, render: seq<string> -> string)
    requires WellFormed(s)
  {
    && s.holder.Some? && Do(s, a, render).holder.None?
    && (a.Compare? || (a.ApplyEnds? && a.how.Applied?))
  }

  /**
   * What a successful reload stands for. In every run, with any number of
   * reloads and database changes in between, each table it read is from a
   * version no older than its call and no older than anything an earlier
   * successful reload read; what it remembers is the rendering of those
   * parts; and unless an apply failed since the last one that succeeded, that
   * rendering is what the kernel holds.
   */
  lemma SuccessfulReloadIsFresh(start: System, actions: seq<Action>, a: Action, render: seq<string> -> string)
    requires Initial(start) && RendersText(render)
    requires Succeeds(Run(start, actions, render), a, render)
    ensures
      var s := Run(start, actions, render);
      var s' := Do(s, a, render);
      && s'.seen == s.holder.value.seen && |s'.seen| == TABLES && InOrder(s'.seen)
      && (forall i :: 0 <= i < TABLES ==> s.holder.value.called <= s'.seen[i] < |s'.history|)
      && AllAtLeast(s'.seen, s.seen)
      && s'.last == render(Parts(s'.history, s'.seen))
      && (!s'.suspect ==> s'.table == s'.last)
  {
    RunKeepsInv(start, actions, render);
    StepKeepsInv(Run(start, actions, render), a, render);
  }

  /** When the database stood still while it was read, the parts are one version. */
  lemma QuietReadIsOneVersion(history: seq<Content>, seen: seq<nat>)
    requires |seen| == TABLES && InOrder(seen) && seen[0] == seen[TABLES - 1]
    requires forall i :: 0 <= i < |seen| ==> seen[i] < |history|
    requires forall v :: 0 <= v < |history| ==> |history[v]| == TABLES
    ensures Parts(history, seen) == history[seen[0]]
  {
    assert forall i :: 0 <= i < TABLES ==> seen[0] <= seen[i] <= seen[TABLES - 1];
  }

  lemma WaitingGoesOn(s: System, a: Action, task: nat, render: seq<string> -> string)
    requires WellFormed(s) && task in s.waiting && a != Lock(task)
    ensures var t := Do(s, a, render); task in t.waiting && t.waiting[task] == s.waiting[task]
  {
  }

  /** However long it waits for the lock, a reload answers for the version that was current when it was called. */
  lemma {:induction false} LockRemembersTheCall(s: System, task: nat, middle: seq<Action>, render: seq<string> -> string)
    requires WellFormed(s) && task !in s.waiting && Lock(task) !in middle
    ensures
      var t := Run(Do(s, Call(task), render), middle, render);
      && task in t.waiting && t.waiting[task] == |s.history| - 1
      && (t.holder.None? ==> Do(t, Lock(task), render).holder == Some(Holder(|s.history| - 1, [], None)))
    decreases |middle|
  {
    if middle != [] {
      LockRemembersTheCall(s, task, middle[..|middle| - 1], render);
      var before := Run(Do(s, Call(task), render), middle[..|middle| - 1], render);
      WaitingGoesOn(before, middle[|middle| - 1], task, render);
    }
  }

  lemma RunLast(s: System, front: seq<Action>, a: Action, render: seq<string> -> string)
    requires WellFormed(s)
    ensures Run(s, front + [a], render) == Do(Run(s, front, render), a, render)
  {
    assert (front + [a])[..|front|] == front;
  }

  /** Reads with nothing in between all see the current version. */
  function Reading(n: nat): seq<Action> { if n == 0 then [] else Reading(n - 1) + [ReadTable] }

  function Same(n: nat, version: nat): (seen: seq<nat>)
    ensures |seen| == n && forall i :: 0 <= i < n ==> seen[i] == version
  {
    if n == 0 then [] else Same(n - 1, version) + [version]
  }

  /** The same with the lock's holder having read this much of the current version. */
  function HavingRead(s: System, h: Holder, n: nat): System
    requires s.history != []
  {
    s.(holder := Some(h.(seen := Same(n, |s.history| - 1))))
  }

  lemma ReadSeesCurrent(s: System, h: Holder, n: nat, render: seq<string> -> string)
    requires s.history != [] && n < TABLES && WellFormed(HavingRead(s, h, n))
    ensures Do(HavingRead(s, h, n), ReadTable, render) == HavingRead(s, h, n + 1)
  {
  }

  lemma {:induction false} ReadingSeesCurrent(s: System, h: Holder, n: nat, render: seq<string> -> string)
    requires WellFormed(s) && s.holder == Some(h) && h.seen == [] && n <= TABLES
    ensures Run(s, Reading(n), render) == HavingRead(s, h, n)
  {
    if n > 0 {
      ReadingSeesCurrent(s, h, n - 1, render);
      RunLast(s, Reading(n - 1), ReadTable, render);
      ReadSeesCurrent(s, h, n - 1, render);
    }
  }

  /** The database changes and a reload gets the lock, whoever held it before. */
  function ChangeAndLock(s: System, content: Content, task: nat, render: seq<string> -> string): (t: System)
    requires WellFormed(s)
    ensures WellFormed(t)
  {
    Do(Do(Do(Do(s, Abandon, render), Change(content), render), Call(task), render), Lock(task), render)
  }

  /** The rest of that reload, with nothing in between. */
  function ReadAndApply(s: System, render: seq<string> -> string): System
    requires WellFormed(s)
  {
    Do(Do(Run(s, Reading(TABLES), render), Compare, render), ApplyEnds(Applied), render)
  }

  lemma ChangeIsLocked(s: System, content: Content, task: nat, render: seq<string> -> string)
    requires WellFormed(s) && |content| == TABLES && task !in s.waiting
    requires s.holder.Some? ==> s.holder.value.text.None?
    ensures
      var t := ChangeAndLock(s, content, task, render);
      && t == s.(history := s.history + [content], holder := Some(Holder(|s.history|, [], None)), waiting := t.waiting)
  {
  }

  /** A reload on its own renders the current version, and applies it unless it is the text it remembers. */
  lemma QuietReload(s: System, render: seq<string> -> string)
    requires WellFormed(s) && s.holder.Some? && s.holder.value.seen == [] && s.holder.value.text.None?
    ensures
      var t, text := ReadAndApply(s, render), render(s.history[|s.history| - 1]);
      && t.holder.None? && t.last == text && t.table == if text == s.last then s.table else text
  {
    ReadingSeesCurrent(s, s.holder.value, TABLES, render);
    QuietReadIsOneVersion(s.history, Same(TABLES, |s.history| - 1));
  }

  /**
   * A change gets into the kernel. After every run, a change and one reload on
   * its own leave the ruleset of the new content in the cache, the lock free,
   * and the same ruleset in the kernel, unless the reload skipped over an
   * apply that had failed.
   */
  lemma ReloadInstallsChange(start: System, actions: seq<Action>, content: Content, task: nat,
                             render: seq<string> -> string)
    requires Initial(start) && RendersText(render) && |content| == TABLES
    requires
      var s := Run(start, actions, render);
      task !in s.waiting && (s.holder.Some? ==> s.holder.value.text.None?)
    ensures
      var s := Run(start, actions, render);
      var t := ReadAndApply(ChangeAndLock(s, content, task, render), render);
      && t.holder.None? && t.last == render(content)
      && (t.table == render(content) || (s.suspect && s.last == render(content) && t.table == s.table))
  {
    RunKeepsInv(start, actions, render);
    var s := Run(start, actions, render);
    ChangeIsLocked(s, content, task, render);
    QuietReload(ChangeAndLock(s, content, task, render), render);
  }

  // ------------------------------------------------------------------
  // When the cached text can be trusted
  // ------------------------------------------------------------------

  /** The same steps, except perhaps for which failed applies reached the kernel. */
  predicate SameButLanding(a: seq<Action>, b: seq<Action>) {
    && |a| == |b|
    && (forall i :: 0 <= i < |a| ==>
          a[i] == b[i] || (a[i].ApplyEnds? && b[i].ApplyEnds? && a[i].how.Failed? && b[i].how.Failed?))
  }

  /** Nothing but the table itself can tell whether a failed apply landed. */
  lemma LandingIsInvisible(s: System, table: string, a: Action, b: Action, render: seq<string> -> string)
    requires WellFormed(s) && SameButLanding([a], [b])
    ensures
      var t, u := Do(s, a, render), Do(s.(table := table), b, render);
      u == t.(table := u.table)
  {
    assert [a][0] == [b][0] || ([a][0].ApplyEnds? && [b][0].ApplyEnds? && [a][0].how.Failed? && [b][0].how.Failed?);
  }

  lemma {:induction false} LandingIsInvisibleRun(s: System, a: seq<Action>, b: seq<Action>, render: seq<string> -> string)
    requires WellFormed(s) && SameButLanding(a, b)
    ensures
      var t, u := Run(s, a, render), Run(s, b, render);
      u == t.(table := u.table)
    decreases |a|
  {
    if a != [] {
      LandingIsInvisibleRun(s, a[..|a| - 1], b[..|b| - 1], render);
      var t, u := Run(s, a[..|a| - 1], render), Run(s, b[..|b| - 1], render);
      LandingIsInvisible(t, u.table, a[|a| - 1], b[|b| - 1], render);
    }
  }

  /** The running reload's apply ends in failure. */
  predicate FailsNow(s: System, a: Action) {
    a.ApplyEnds? && a.how.Failed? && s.holder.Some? && s.holder.value.text.Some?
  }

  lemma OtherStepsKeepSuspicion(s: System, a: Action, render: seq<string> -> string)
    requires WellFormed(s) && !FailsNow(s, a) && Do(s, a, render).suspect
    ensures s.suspect && Do(s, a, render).table == s.table && Do(s, a, render).last == s.last
  {
  }

  lemma FailureCanLand(s: System, a: Action, render: seq<string> -> string)
    requires Inv(s, render) && FailsNow(s, a)
    ensures
      var t := Do(s, ApplyEnds(Failed(true)), render);
      t.table != t.last
  {
  }

  /** With a failed apply outstanding, some outcome of it contradicts the cache. */
  lemma {:induction false} SuspectCanBeWrong(s: System, actions: seq<Action>, render: seq<string> -> string)
    returns (other: seq<Action>)
    requires Initial(s) && RendersText(render)
    requires Run(s, actions, render).suspect
    ensures SameButLanding(actions, other)
    ensures Run(s, other, render).table != Run(s, other, render).last
    decreases |actions|
  {
    var front, a := actions[..|actions| - 1], actions[|actions| - 1];
    assert actions == front + [a];
    if FailsNow(Run(s, front, render), a) {
      other := front + [ApplyEnds(Failed(true))];
      LandsLast(s, front, a, render);
    } else {
      OtherStepsKeepSuspicion(Run(s, front, render), a, render);
      var rest := SuspectCanBeWrong(s, front, render);
      StaysWrong(s, front, rest, a, render);
      other := rest + [a];
    }
  }

  lemma LandsLast(s: System, front: seq<Action>, a: Action, render: seq<string> -> string)
    requires Initial(s) && RendersText(render) && FailsNow(Run(s, front, render), a)
    ensures
      var t := Run(s, front + [ApplyEnds(Failed(true))], render);
      t.table != t.last
  {
    RunKeepsInv(s, front, render);
    RunLast(s, front, ApplyEnds(Failed(true)), render);
    FailureCanLand(Run(s, front, render), a, render);
  }

  lemma StaysWrong(s: System, front: seq<Action>, rest: seq<Action>, a: Action, render: seq<string> -> string)
    requires WellFormed(s) && SameButLanding(front, rest)
    requires !FailsNow(Run(s, front, render), a) && Run(s, front + [a], render).suspect
    requires Run(s, rest, render).table != Run(s, rest, render).last
    ensures Run(s, rest + [a], render).table != Run(s, rest + [a], render).last
  {
    LandingIsInvisibleRun(s, front, rest, render);
    RunLast(s, front, a, render);
    RunLast(s, rest, a, render);
    var t, u := Run(s, front, render), Run(s, rest, render);
    assert u == t.(table := u.table);
    LandingIsInvisible(t, u.table, a, a, render);
    OtherStepsKeepSuspicion(u, a, render);
  }

  /**
   * When a skip is safe. Once a ruleset has been applied, the cached text is
   * what the kernel holds, for every way the failed applies may have turned
   * out, if and only if no apply failed after the last one that succeeded.
   */
  lemma CacheIsRightExactlyWhen(start: System, actions: seq<Action>, render: seq<string> -> string)
    requires Initial(start) && RendersText(render)
    requires Run(start, actions, render).last != ""
    ensures (forall other: seq<Action> :: SameButLanding(actions, other) ==>
               Run(start, other, render).table == Run(start, other, render).last)
            <==> !Run(start, actions, render).suspect
  {
    if Run(start, actions, render).suspect {
      var other := SuspectCanBeWrong(start, actions, render);
    } else {
      forall other: seq<Action> | SameButLanding(actions, other)
        ensures Run(start, other, render).table == Run(start, other, render).last
      {
        LandingIsInvisibleRun(start, actions, other, render);
        RunKeepsInv(start, other, render);
      }
    }
  }
}
