/** Reconciling the informers of custom resources with the list of their definitions, while another
    goroutine may stop the watcher. Every section under the lock is one atomic step; so is every close
    of a stop channel, which happens without the lock. */
module KubeWatcher {
  datatype Crd = Crd(group: string, version: string, resource: string, kind: string)

  /** A started informer; the id stands for the identity of its stop channel. */
  datatype Informer = Informer(crd: Crd, id: nat)

  type Informers = map<Crd, Informer>

  /** What the goroutines share. `started`, `closed` and `panicked` record what has happened to the stop
      channels: closing one a second time panics. The built-in informers have one stop channel together;
      `wellKnownClosed` says that it is closed, `ticking` that refreshes are still triggered. */
  datatype Shared = Shared(informers: Informers, stopped: bool, out: seq<string>,
                           nextId: nat, started: set<Informer>, closed: set<Informer>, panicked: bool,
                           wellKnownClosed: bool, ticking: bool)

  // ----- the atomic sections -----

  function Pulled(s: Shared): Shared {
    s.(informers := map[])
  }

  /** The section of `existingOrStartNewCrdInformer`, on the shared state and the pulled map. */
  function Adopted(s: Shared, existing: Informers, crd: Crd): (Shared, Informers) {
    if s.stopped then (s, existing)
    else if crd in existing then (s.(informers := s.informers[crd := existing[crd]]), existing - {crd})
    else
      var fresh' := Informer(crd, s.nextId);
      (s.(informers := s.informers[crd := fresh'], nextId := s.nextId + 1, started := s.started + {fresh'}), existing)
  }

  function Closed(s: Shared, x: Informer): Shared {
    s.(closed := s.closed + {x}, panicked := s.panicked || x in s.closed)
  }

  function TickerStopped(s: Shared): Shared {
    s.(ticking := false)
  }

  function WellKnownClosed(s: Shared): Shared {
    s.(wellKnownClosed := true, panicked := s.panicked || s.wellKnownClosed)
  }

  function Written(s: Shared, rec: string): Shared {
    if s.stopped then s else s.(out := s.out + [rec])
  }

  // ----- the watcher itself -----

  class CrdMap {
    var entries: Informers

    constructor ()
      ensures entries == map[]
    {
      entries := map[];
    }
  }

  class KubeWatcherImpl {
    var crdInformers: CrdMap
    var stopped: bool
    var outchan: seq<string>
    var nextId: nat
    var started: set<Informer>
    var closed: set<Informer>
    var panicked: bool
    var wellKnownClosed: bool
    var ticking: bool

    ghost function State(): Shared
      reads this, crdInformers
    {
      Shared(crdInformers.entries, stopped, outchan, nextId, started, closed, panicked, wellKnownClosed, ticking)
    }

    constructor ()
      ensures State() == Shared(map[], false, [], 0, {}, {}, false, false, true) && fresh(crdInformers)
    {
      crdInformers := new CrdMap();
      stopped, outchan, nextId, started, closed, panicked := false, [], 0, {}, {}, false;
      wellKnownClosed, ticking := false, true;
    }

    /** Hands out the current map and starts a new one. */
    method PullCrdInformers() returns (pulled: CrdMap)
      modifies this`crdInformers
      ensures pulled == old(crdInformers) && fresh(crdInformers)
      ensures State() == Pulled(old(State()))
    {
      pulled := crdInformers;
      crdInformers := new CrdMap();
    }

    /** Takes what it finds out of the caller's map. */
    method ExistingOrStartNewCrdInformer(crd: Crd, existing: CrdMap)
      requires existing != crdInformers
      modifies this, crdInformers, existing
      ensures crdInformers == old(crdInformers)
      ensures (State(), existing.entries) == Adopted(old(State()), old(existing.entries), crd)
    {
      if stopped {
        return;
      }
      if crd in existing.entries {
        crdInformers.entries := crdInformers.entries[crd := existing.entries[crd]];
        existing.entries := existing.entries - {crd};
        return;
      }
      var crdInformer := Informer(crd, nextId);
      nextId, started := nextId + 1, started + {crdInformer};
      crdInformers.entries := crdInformers.entries[crd := crdInformer];
    }

    method CloseStopChan(x: Informer)
      modifies this`closed, this`panicked
      ensures closed == old(closed) + {x} && panicked == (old(panicked) || x in old(closed))
      ensures State() == Closed(old(State()), x)
    {
      panicked := panicked || x in closed;
      closed := closed + {x};
    }

    /** Closes the stop channels of a map, in arbitrary order. */
    method StopUnwantedCrdInformers(existing: CrdMap)
      requires existing != crdInformers
      modifies this`closed, this`panicked
      ensures Disjointly(existing.entries) && existing.entries.Values !! old(closed) ==>
                State() == old(State()).(closed := old(closed) + existing.entries.Values)
    {
      hide Without, Disjointly;
      var entries := existing.entries;
      var rest := entries.Keys;
      ghost var fine := Disjointly(entries) && entries.Values !! closed;
      WithoutEnds(entries);
      while rest != {}
        invariant rest <= entries.Keys
        invariant fine ==> closed == old(closed) + Without(entries, rest) && panicked == old(panicked)
        decreases |rest|
      {
        var crd :| crd in rest;
        if fine {
          CloseOneMore(old(closed), entries, rest, crd);
        }
        CloseStopChan(entries[crd]);
        rest := rest - {crd};
      }
    }

    /** A whole refresh that nothing interrupts. */
    method StartCustomInformers(crdList: seq<Crd>)
      requires Disjointly(crdInformers.entries) && crdInformers.entries.Values !! closed
      requires forall x :: x in started ==> x.id < nextId
      requires crdInformers.entries.Values <= started
      modifies this, crdInformers
      ensures State() == Refreshed(old(State()), crdList)
    {
      ghost var s0 := State();
      var existing := PullCrdInformers();
      var i := 0;
      assert crdList[..0] == [];
      while i < |crdList|
        invariant i <= |crdList| && existing != crdInformers && fresh(crdInformers)
        invariant (State(), existing.entries) == AdoptedAll(Pulled(s0), s0.informers, crdList[..i])
      {
        assert crdList[..i + 1][..i] == crdList[..i];
        ExistingOrStartNewCrdInformer(crdList[i], existing);
        i := i + 1;
      }
      assert crdList[..i] == crdList;
      AdoptingShrinks(Pulled(s0), s0.informers, crdList);
      StopUnwantedCrdInformers(existing);
    }

    /** The first call stops everything. A second one returns early, and does so holding the lock. */
    method Stop() returns (holdsLock: bool)
      requires Disjointly(crdInformers.entries) && crdInformers.entries.Values !! closed && (wellKnownClosed ==> stopped)
      modifies this
      ensures holdsLock == old(stopped)
      ensures State() == if old(stopped) then old(State()) else
                old(State()).(stopped := true, ticking := false, wellKnownClosed := true, informers := map[],
                              closed := old(closed) + old(crdInformers.entries.Values))
    {
      if stopped {
        return true;
      }
      stopped := true;
      ticking := false;
      panicked := panicked || wellKnownClosed;
      wellKnownClosed := true;
      var pulled := PullCrdInformers();
      StopUnwantedCrdInformers(pulled);
      return false;
    }

    method WriteToOutChan(watchResult: string)
      modifies this`outchan
      ensures outchan == if old(stopped) then old(outchan) else old(outchan) + [watchResult]
      ensures State() == Written(old(State()), watchResult)
    {
      if stopped {
        return;
      }
      outchan := outchan + [watchResult];
    }
  }

  /** Every informer is filed under its own definition, so no informer is in the map twice. */
  ghost predicate Disjointly(m: Informers) {
    forall c :: c in m ==> m[c].crd == c
  }

  /** The informers of the definitions not in `rest`. */
  ghost function Without(m: Informers, rest: set<Crd>): set<Informer> {
    set c | c in m && c !in rest :: m[c]
  }

  lemma WithoutEnds(m: Informers)
    ensures Without(m, m.Keys) == {} && Without(m, {}) == m.Values
  {
  }

  lemma CloseOneMore(closed: set<Informer>, m: Informers, rest: set<Crd>, crd: Crd)
    requires Disjointly(m) && m.Values !! closed && crd in rest && crd in m
    ensures closed + Without(m, rest - {crd}) == closed + Without(m, rest) + {m[crd]}
    ensures m[crd] !in closed + Without(m, rest)
  {
    assert m[crd] in m.Values;
  }

  function AdoptedAll(s: Shared, existing: Informers, list: seq<Crd>): (Shared, Informers) {
    if list == [] then (s, existing)
    else
      var (s', existing') := AdoptedAll(s, existing, list[..|list| - 1]);
      Adopted(s', existing', list[|list| - 1])
  }

  ghost function Refreshed(s: Shared, list: seq<Crd>): Shared {
    var (s', left) := AdoptedAll(Pulled(s), s.informers, list);
    s'.(closed := s'.closed + left.Values)
  }

  lemma {:induction false} AdoptingShrinks(s: Shared, existing: Informers, list: seq<Crd>)
    ensures var (s', left) := AdoptedAll(s, existing, list);
            left.Keys <= existing.Keys && (forall c :: c in left ==> left[c] == existing[c]) && s'.closed == s.closed
  {
    if list != [] {
      AdoptingShrinks(s, existing, list[..|list| - 1]);
    }
  }

  // ----- all interleavings of refreshes, one Stop and the event handlers -----

  /** Where the refresh loop is. `list` is what was fetched, `before` the map as it was pulled; a tick
      that has not pulled yet is `Idle`. */
  datatype Refresh =
    | Idle
    | Fetched(list: seq<Crd>)
    | Adopting(list: seq<Crd>, before: Informers, done: nat, existing: Informers)
    | Closing(list: seq<Crd>, before: Informers, leftover: set<Informer>)

  /** Where the goroutine that calls `Stop` is. */
  datatype Stopping = NotCalled | FlagSet | TickerOff | WellKnownOff | ClosingAll(leftover: set<Informer>) | Stopped

  /** `outAtStop` is what had been sent when `Stop` set the flag. */
  datatype State = State(shared: Shared, refresh: Refresh, stop: Stopping, outAtStop: seq<string>)

  ghost predicate Init(s: State) {
    s.shared == Shared(map[], false, [], 0, {}, {}, false, false, true) && s.refresh == Idle && s.stop == NotCalled
  }

  predicate NoDuplicates(list: seq<Crd>) {
    forall i, j :: 0 <= i < j < |list| ==> list[i] != list[j]
  }

  datatype Step =
    | Fetch(list: seq<Crd>)
    | Pull
    | Adopt
    | DoneAdopting
    | CloseUnwanted(x: Informer)
    | DoneRefreshing
    | SetStopped
    | StopTicker
    | CloseWellKnown
    | PullAtStop
    | CloseAtStop(x: Informer)
    | DoneStopping
    | Write(rec: string)

  ghost predicate Enabled(s: State, step: Step) {
    match step
    case Fetch(list) => s.refresh.Idle? && NoDuplicates(list)
    case Pull => s.refresh.Fetched?
    case Adopt => s.refresh.Adopting? && s.refresh.done < |s.refresh.list|
    case DoneAdopting => s.refresh.Adopting? && s.refresh.done >= |s.refresh.list|
    case CloseUnwanted(x) => s.refresh.Closing? && x in s.refresh.leftover
    case DoneRefreshing => s.refresh.Closing? && s.refresh.leftover == {}
    case SetStopped => s.stop.NotCalled?
    case StopTicker => s.stop.FlagSet?
    case CloseWellKnown => s.stop.TickerOff?
    case PullAtStop => s.stop.WellKnownOff?
    case CloseAtStop(x) => s.stop.ClosingAll? && x in s.stop.leftover
    case DoneStopping => s.stop.ClosingAll? && s.stop.leftover == {}
    case Write(rec) => true
  }

  ghost function After(s: State, step: Step): State
    requires Enabled(s, step)
  {
    match step
    case Fetch(list) => s.(refresh := Fetched(list))
    case Pull => s.(shared := Pulled(s.shared), refresh := Adopting(s.refresh.list, s.shared.informers, 0, s.shared.informers))
    case Adopt =>
      var (shared, existing) := Adopted(s.shared, s.refresh.existing, s.refresh.list[s.refresh.done]);
      s.(shared := shared, refresh := s.refresh.(done := s.refresh.done + 1, existing := existing))
    case DoneAdopting => s.(refresh := Closing(s.refresh.list, s.refresh.before, s.refresh.existing.Values))
    case CloseUnwanted(x) => s.(shared := Closed(s.shared, x), refresh := s.refresh.(leftover := s.refresh.leftover - {x}))
    case DoneRefreshing => s.(refresh := Idle)
    case SetStopped => s.(shared := s.shared.(stopped := true), stop := FlagSet, outAtStop := s.shared.out)
    case StopTicker => s.(shared := TickerStopped(s.shared), stop := TickerOff)
    case CloseWellKnown => s.(shared := WellKnownClosed(s.shared), stop := WellKnownOff)
    case PullAtStop => s.(shared := Pulled(s.shared), stop := ClosingAll(s.shared.informers.Values))
    case CloseAtStop(x) => s.(shared := Closed(s.shared, x), stop := s.stop.(leftover := s.stop.leftover - {x}))
    case DoneStopping => s.(stop := Stopped)
    case Write(rec) => s.(shared := Written(s.shared, rec))
  }

  ghost predicate Next(s: State, s': State) {
    exists step :: Enabled(s, step) && s' == After(s, step)
  }

  /** A run: any interleaving of steps from an initial state. */
  ghost predicate IsRun(run: seq<State>) {
    && |run| > 0 && Init(run[0])
    && forall i :: 0 <= i < |run| - 1 ==> Next(run[i], run[i + 1])
  }

  // ----- the invariant -----

  function HeldByRefresh(r: Refresh): set<Informer> {
    match r
    case Adopting(_, _, _, existing) => existing.Values
    case Closing(_, _, leftover) => leftover
    case _ => {}
  }

  function HeldByStop(p: Stopping): set<Informer> {
    if p.ClosingAll? then p.leftover else {}
  }

  /** Every started informer is in exactly one place: the shared map, the hands of the refresh, the hands
      of `Stop`, or closed. */
  ghost predicate Accounted(s: State) {
    var a, b, c, d := s.shared.informers.Values, HeldByRefresh(s.refresh), HeldByStop(s.stop), s.shared.closed;
    && s.shared.started == a + b + c + d
    && a !! b !! c !! d
    && Disjointly(s.shared.informers)
    && (s.refresh.Adopting? ==> Disjointly(s.refresh.existing))
    && (forall x :: x in s.shared.started ==> x.id < s.shared.nextId)
    && !s.shared.panicked
    && (s.shared.wellKnownClosed <==> s.stop.WellKnownOff? || s.stop.ClosingAll? || s.stop.Stopped?)
  }

  ghost predicate StopInvariant(s: State) {
    && (s.shared.ticking <==> s.stop.NotCalled? || s.stop.FlagSet?)
    && (s.shared.stopped <==> !s.stop.NotCalled?)
    && (s.shared.stopped ==> s.shared.out == s.outAtStop)
    && (s.stop.ClosingAll? || s.stop.Stopped? ==> s.shared.informers == map[])
  }

  /** While nobody has called `Stop`, the map holds exactly the definitions dealt with so far, and what was
      there before is still the same informer. */
  ghost predicate RefreshInvariant(s: State) {
    match s.refresh
    case Idle => true
    case Fetched(list) => NoDuplicates(list)
    case Adopting(list, before, done, existing) =>
      && NoDuplicates(list) && done <= |list|
      && (!s.shared.stopped ==> Reconciled(s.shared.informers, before, list[..done])
                                && existing.Keys == before.Keys - s.shared.informers.Keys)
      && (forall c :: c in existing ==> c in before && existing[c] == before[c])
    case Closing(list, before, leftover) =>
      !s.shared.stopped ==> Reconciled(s.shared.informers, before, list)
  }

  /** `now` has an informer for each definition of the list, and keeps those of `before`. */
  ghost predicate Reconciled(now: Informers, before: Informers, list: seq<Crd>) {
    && (forall c :: c in now <==> c in list)
    && (forall c :: c in now && c in before ==> now[c] == before[c])
  }

  ghost predicate Inv(s: State) {
    Accounted(s) && StopInvariant(s) && RefreshInvariant(s)
  }

  lemma AdoptKeepsAccounted(s: State)
    requires Inv(s) && Enabled(s, Adopt)
    ensures Accounted(After(s, Adopt))
  {
    hide RefreshInvariant, StopInvariant;
    var s' := After(s, Adopt);
    var crd := s.refresh.list[s.refresh.done];
    if !s.shared.stopped {
      AdoptIsNew(s);
      if crd in s.refresh.existing {
        var x := s.refresh.existing[crd];
        ValuesAfterAdd(s.shared.informers, crd, x);
        ValuesAfterRemove(s.refresh.existing, crd);
      } else {
        ValuesAfterAdd(s.shared.informers, crd, Informer(crd, s.shared.nextId));
      }
    }
  }

  lemma AdoptIsNew(s: State)
    requires RefreshInvariant(s) && Enabled(s, Adopt) && !s.shared.stopped
    ensures s.refresh.list[s.refresh.done] !in s.shared.informers
  {
  }

  lemma ValuesAfterAdd(m: Informers, c: Crd, x: Informer)
    requires c !in m
    ensures m[c := x].Values == m.Values + {x}
  {
    var m' := m[c := x];
    assert m'[c] == x;
    forall y | y in m.Values ensures y in m'.Values {
      var k :| k in m && m[k] == y;
      assert m'[k] == y;
    }
  }

  lemma ValuesAfterRemove(m: Informers, c: Crd)
    requires c in m && Disjointly(m)
    ensures (m - {c}).Values == m.Values - {m[c]}
  {
    var m' := m - {c};
    forall y | y in m.Values && y != m[c] ensures y in m'.Values {
      var k :| k in m && m[k] == y;
      assert m'[k] == y;
    }
  }

  lemma AdoptKeepsRefresh(s: State)
    requires Inv(s) && Enabled(s, Adopt)
    ensures RefreshInvariant(After(s, Adopt))
  {
    hide Accounted, StopInvariant, Reconciled;
    var list, done := s.refresh.list, s.refresh.done;
    assert list[..done + 1] == list[..done] + [list[done]];
    if !s.shared.stopped {
      ReconcileOneMore(s.shared, s.refresh.existing, s.refresh.before, list[..done], list[done]);
    }
  }

  lemma ReconcileOneMore(s: Shared, existing: Informers, before: Informers, done: seq<Crd>, crd: Crd)
    requires !s.stopped && Reconciled(s.informers, before, done) && crd !in done
    requires existing.Keys == before.Keys - s.informers.Keys && forall c :: c in existing ==> c in before && existing[c] == before[c]
    ensures var (s', existing') := Adopted(s, existing, crd);
            && Reconciled(s'.informers, before, done + [crd])
            && existing'.Keys == before.Keys - s'.informers.Keys
  {
  }

  lemma StepKeepsAccounted(s: State, step: Step)
    requires Accounted(s) && Enabled(s, step) && !step.Adopt?
    ensures Accounted(After(s, step))
  {
  }

  lemma StepKeepsStop(s: State, step: Step)
    requires StopInvariant(s) && Enabled(s, step)
    ensures StopInvariant(After(s, step))
  {
  }

  lemma StepKeepsRefresh(s: State, step: Step)
    requires RefreshInvariant(s) && StopInvariant(s) && Enabled(s, step) && !step.Adopt?
    ensures RefreshInvariant(After(s, step))
  {
    if step.DoneAdopting? {
      assert s.refresh.list[..s.refresh.done] == s.refresh.list;
    }
  }

  lemma NextKeepsInv(s: State, s': State)
    requires Inv(s) && Next(s, s')
    ensures Inv(s')
  {
    hide Accounted, StopInvariant, RefreshInvariant, Enabled, After;
    var step :| Enabled(s, step) && s' == After(s, step);
    StepKeepsStop(s, step);
    if step.Adopt? {
      AdoptKeepsAccounted(s);
      AdoptKeepsRefresh(s);
    } else {
      StepKeepsAccounted(s, step);
      StepKeepsRefresh(s, step);
    }
  }

  lemma {:induction false} RunKeepsInv(run: seq<State>, i: nat)
    requires IsRun(run) && i < |run|
    ensures Inv(run[i])
    decreases i
  {
    hide Next, Inv;
    if i == 0 {
      InitInv(run[0]);
    } else {
      RunKeepsInv(run, i - 1);
      NextKeepsInv(run[i - 1], run[i]);
    }
  }

  lemma InitInv(s: State)
    requires Init(s)
    ensures Inv(s)
  {
  }

  // ----- what holds in every run -----

  /** No stop channel is ever closed twice. */
  lemma NeverClosedTwice(run: seq<State>, i: nat)
    requires IsRun(run) && i < |run|
    ensures !run[i].shared.panicked
  {
    RunKeepsInv(run, i);
  }

  /** Once both the refresh and `Stop` have finished, every informer ever started has been closed. */
  lemma StopClosesEverything(run: seq<State>, i: nat)
    requires IsRun(run) && i < |run|
    requires run[i].refresh.Idle? && run[i].stop.Stopped?
    ensures run[i].shared.closed == run[i].shared.started && run[i].shared.wellKnownClosed && !run[i].shared.ticking
  {
    RunKeepsInv(run, i);
  }

  lemma StoppedIsSilent(s: State, s': State)
    requires StopInvariant(s) && Next(s, s') && !s.stop.NotCalled?
    ensures s'.shared.out == s.shared.out && !s'.stop.NotCalled?
  {
    hide Adopted;
    var step :| Enabled(s, step) && s' == After(s, step);
    if step.Adopt? {
      AdoptSendsNothing(s.shared, s.refresh.existing, s.refresh.list[s.refresh.done]);
    }
  }

  lemma AdoptSendsNothing(s: Shared, existing: Informers, crd: Crd)
    ensures Adopted(s, existing, crd).0.out == s.out
  {
  }

  /** Nothing is sent after `Stop` has set its flag. */
  lemma {:induction false} NothingSentAfterStop(run: seq<State>, i: nat, j: nat)
    requires IsRun(run) && i <= j < |run| && !run[i].stop.NotCalled?
    ensures run[j].shared.out == run[i].shared.out && !run[j].stop.NotCalled?
    decreases j
  {
    hide Accounted, RefreshInvariant, StopInvariant, Next, Init;
    if i < j {
      NothingSentAfterStop(run, i, j - 1);
      RunKeepsInv(run, j - 1);
      StoppedIsSilent(run[j - 1], run[j]);
    }
  }

  /** A run together with the steps taken in it. */
  ghost predicate IsTrace(run: seq<State>, steps: seq<Step>) {
    && |run| == |steps| + 1 && Init(run[0])
    && forall i :: 0 <= i < |steps| ==> Enabled(run[i], steps[i]) && run[i + 1] == After(run[i], steps[i])
  }

  lemma StepOf(s: State, s': State) returns (step: Step)
    requires Next(s, s')
    ensures Enabled(s, step) && s' == After(s, step)
  {
    step :| Enabled(s, step) && s' == After(s, step);
  }

  /** Every run has its steps. */
  lemma {:induction false} StepsOfRun(run: seq<State>) returns (steps: seq<Step>)
    requires IsRun(run)
    ensures IsTrace(run, steps)
  {
    hide Next, Enabled, After, Init;
    var n := |run| - 1;
    if n == 0 {
      steps := [];
    } else {
      assert forall i :: 0 <= i < n ==> run[..n][i] == run[i];
      steps := StepsOfRun(run[..n]);
      assert Next(run[n - 1], run[n - 1 + 1]);
      var step := StepOf(run[n - 1], run[n]);
      steps := steps + [step];
    }
  }

  /** The records of the `Write` steps before the flag is set. */
  function RecordsToSend(steps: seq<Step>): seq<string> {
    if steps == [] then []
    else
      var last := |steps| - 1;
      RecordsToSend(steps[..last]) + if steps[last].Write? && SetStopped !in steps[..last] then [steps[last].rec] else []
  }

  /** What has been sent at any moment of a run is exactly what was handed over before the flag was set, in order. */
  lemma {:induction false} SentIsWritten(run: seq<State>, steps: seq<Step>, i: nat)
    requires IsTrace(run, steps) && i <= |steps|
    ensures run[i].shared.out == RecordsToSend(steps[..i])
    ensures run[i].shared.stopped <==> SetStopped in steps[..i]
    decreases i
  {
    hide Enabled, After;
    if i > 0 {
      SentIsWritten(run, steps, i - 1);
      var before := steps[..i - 1];
      assert steps[..i] == before + [steps[i - 1]] && steps[..i][..i - 1] == before;
      StepSends(run[i - 1], steps[i - 1]);
      assert run[i - 1 + 1] == After(run[i - 1], steps[i - 1]);
    }
  }

  lemma StepSends(s: State, step: Step)
    requires Enabled(s, step)
    ensures After(s, step).shared.out == s.shared.out + (if step.Write? && !s.shared.stopped then [step.rec] else [])
    ensures After(s, step).shared.stopped <==> s.shared.stopped || step == SetStopped
  {
  }

  /** When a refresh ends that `Stop` has not interrupted, exactly the listed definitions have a running
      informer, and informers that were there before were never restarted. */
  lemma RefreshReconciles(run: seq<State>, i: nat)
    requires IsRun(run) && i < |run|
    requires run[i].refresh.Closing? && run[i].refresh.leftover == {} && !run[i].shared.stopped
    ensures var s := run[i];
            && Reconciled(s.shared.informers, s.refresh.before, s.refresh.list)
            && s.shared.started - s.shared.closed == s.shared.informers.Values
            && forall c :: c in s.refresh.list ==> s.shared.informers[c].crd == c
  {
    RunKeepsInv(run, i);
  }

  // ----- termination -----

  function RefreshWork(r: Refresh): nat {
    match r
    case Idle => 0
    case Closing(_, _, leftover) => 1 + |leftover|
    case Adopting(list, _, done, existing) => 2 + |existing| + (if done < |list| then |list| - done else 0)
    case Fetched(list) => 0
  }

  function StopWork(s: State): nat {
    match s.stop
    case NotCalled => 0
    case FlagSet => 4 + |s.shared.informers.Values|
    case TickerOff => 3 + |s.shared.informers.Values|
    case WellKnownOff => 2 + |s.shared.informers.Values|
    case ClosingAll(leftover) => 1 + |leftover|
    case Stopped => 0
  }

  /** Once it holds the map it pulled, each step of the refresh leaves it less to do. */
  lemma RefreshWorkDecreases(s: State, step: Step)
    requires Enabled(s, step) && (step.Adopt? || step.DoneAdopting? || step.CloseUnwanted? || step.DoneRefreshing?)
    ensures RefreshWork(After(s, step).refresh) < RefreshWork(s.refresh)
  {
    hide Adopted;
    if step.DoneAdopting? {
      FewerValues(s.refresh.existing);
    } else if step.Adopt? {
      AdoptTakes(s.shared, s.refresh.existing, s.refresh.list[s.refresh.done]);
    } else if step.CloseUnwanted? {
      OneLess(s.refresh.leftover, step.x);
    }
  }

  predicate OfStop(step: Step) {
    step.StopTicker? || step.CloseWellKnown? || step.PullAtStop? || step.CloseAtStop? || step.DoneStopping?
  }

  /** And so does each step of `Stop` once the flag is set; no step of another goroutine makes more work for it. */
  lemma StopWorkDecreases(s: State, step: Step)
    requires StopInvariant(s) && Enabled(s, step) && !s.stop.NotCalled?
    ensures if OfStop(step) then StopWork(After(s, step)) < StopWork(s) else StopWork(After(s, step)) <= StopWork(s)
  {
    if step.CloseAtStop? {
      OneLess(s.stop.leftover, step.x);
    }
  }

  lemma OneLess(leftover: set<Informer>, x: Informer)
    requires x in leftover
    ensures |leftover - {x}| < |leftover|
  {
  }

  lemma AdoptTakes(s: Shared, existing: Informers, crd: Crd)
    ensures |Adopted(s, existing, crd).1| <= |existing|
  {
    if crd in existing {
      assert existing.Keys == (existing - {crd}).Keys + {crd};
    }
  }

  lemma {:induction false} FewerValues(m: Informers)
    ensures |m.Values| <= |m|
    decreases |m|
  {
    if m != map[] {
      var c :| c in m;
      var m' := m - {c};
      assert m.Keys == m'.Keys + {c};
      FewerValues(m');
      assert m.Values == m'.Values + {m[c]};
    } else {
      assert m.Values == {};
    }
  }

  // ----- why the list must not repeat a definition -----

  ghost predicate SoundShared(s: Shared) {
    && Disjointly(s.informers) && s.informers.Values !! s.closed
    && s.started == s.informers.Values + s.closed
    && (forall x :: x in s.started ==> x.id < s.nextId)
  }

  /** An informer that nobody can reach any more and that was not closed. */
  ghost predicate Leaked(s: Shared, existing: Informers, x: Informer) {
    x in s.started && x !in s.informers.Values && x !in existing.Values && x !in s.closed
  }

  ghost predicate MidRefresh(s: Shared, existing: Informers) {
    && Disjointly(s.informers) && Disjointly(existing) && s.informers.Keys !! existing.Keys
    && s.informers.Values <= s.started && existing.Values <= s.started
    && s.informers.Values !! s.closed && existing.Values !! s.closed && s.closed <= s.started
    && (forall x :: x in s.started ==> x.id < s.nextId)
  }

  /** The informers in both maps, after a definition has been dealt with. */
  lemma AdoptedValues(s: Shared, existing: Informers, crd: Crd)
    requires Disjointly(s.informers) && Disjointly(existing) && s.informers.Keys !! existing.Keys && !s.stopped
    ensures var (s', existing') := Adopted(s, existing, crd);
            && s'.informers.Keys == s.informers.Keys + {crd} && existing'.Keys == existing.Keys - {crd}
            && (if crd in existing then
                  && s'.informers.Values == s.informers.Values + {existing[crd]}
                  && existing'.Values == existing.Values - {existing[crd]} && s'.started == s.started && s'.nextId == s.nextId
                else
                  var x := Informer(crd, s.nextId);
                  && s'.informers.Values == (if crd in s.informers then s.informers.Values - {s.informers[crd]} else s.informers.Values) + {x}
                  && existing' == existing && s'.started == s.started + {x} && s'.nextId == s.nextId + 1)
  {
    if crd in existing {
      ValuesAfterAdd(s.informers, crd, existing[crd]);
      ValuesAfterRemove(existing, crd);
    } else if crd !in s.informers {
      ValuesAfterAdd(s.informers, crd, Informer(crd, s.nextId));
    } else {
      ValuesAfterReplace(s.informers, crd, Informer(crd, s.nextId));
    }
  }

  lemma AdoptKeepsMid(s: Shared, existing: Informers, crd: Crd)
    requires MidRefresh(s, existing) && !s.stopped
    ensures var (s', existing') := Adopted(s, existing, crd); MidRefresh(s', existing') && !s'.stopped
  {
    AdoptedValues(s, existing, crd);
  }

  /** Nothing that has leaked comes back, and something leaks exactly when a definition comes up again. */
  lemma AdoptLeaks(s: Shared, existing: Informers, crd: Crd)
    requires MidRefresh(s, existing) && !s.stopped
    ensures var (s', existing') := Adopted(s, existing, crd);
            && s'.informers.Keys == s.informers.Keys + {crd}
            && (forall x :: Leaked(s, existing, x) ==> Leaked(s', existing', x))
            && (forall x :: Leaked(s', existing', x) ==> Leaked(s, existing, x) || crd in s.informers)
            && (crd in s.informers ==> Leaked(s', existing', s.informers[crd]))
  {
    AdoptedValues(s, existing, crd);
    if crd in s.informers {
      assert s.informers[crd] in s.informers.Values;
      forall c | c in existing ensures existing[c] != s.informers[crd] {
        assert existing[c].crd == c;
      }
    }
  }

  lemma ValuesAfterReplace(m: Informers, c: Crd, x: Informer)
    requires c in m && Disjointly(m) && x.crd == c
    ensures m[c := x].Values == m.Values - {m[c]} + {x}
  {
    assert m[c := x] == (m - {c})[c := x];
    ValuesAfterRemove(m, c);
    ValuesAfterAdd(m - {c}, c, x);
  }

  lemma {:induction false} AdoptingLeaks(s: Shared, existing: Informers, list: seq<Crd>)
    requires MidRefresh(s, existing) && !s.stopped && s.informers == map[]
    requires forall x :: !Leaked(s, existing, x)
    ensures var (s', existing') := AdoptedAll(s, existing, list);
            && MidRefresh(s', existing') && !s'.stopped
            && (forall c :: c in s'.informers <==> c in list)
            && ((exists x :: Leaked(s', existing', x)) <==> !NoDuplicates(list))
  {
    hide Leaked, MidRefresh, Adopted;
    if list != [] {
      var front, crd := list[..|list| - 1], list[|list| - 1];
      assert list == front + [crd];
      AdoptingLeaks(s, existing, front);
      var (s', existing') := AdoptedAll(s, existing, front);
      AdoptKeepsMid(s', existing', crd);
      AdoptLeaks(s', existing', crd);
      DuplicateAtEnd(front, crd);
    }
  }

  lemma DuplicateAtEnd(front: seq<Crd>, crd: Crd)
    ensures NoDuplicates(front + [crd]) <==> NoDuplicates(front) && crd !in front
  {
    var list := front + [crd];
    if crd in front {
      var i :| 0 <= i < |front| && front[i] == crd;
      assert list[i] == list[|front|];
    }
    if NoDuplicates(list) {
      assert forall i, j :: 0 <= i < j < |front| ==> front[i] == list[i] && front[j] == list[j];
    }
  }

  /** A refresh that nothing interrupts leaves every unclosed informer in the map, exactly when the list
      names no definition twice; otherwise one is lost that nothing will ever close. */
  lemma RefreshLeaksOnDuplicates(s: Shared, list: seq<Crd>)
    requires SoundShared(s) && !s.stopped
    ensures (forall x :: !Leaked(Refreshed(s, list), map[], x)) <==> NoDuplicates(list)
  {
    AdoptingLeaks(Pulled(s), s.informers, list);
    AdoptingShrinks(Pulled(s), s.informers, list);
    var (s', left) := AdoptedAll(Pulled(s), s.informers, list);
    forall x ensures Leaked(Refreshed(s, list), map[], x) <==> Leaked(s', left, x) {
    }
  }
}
