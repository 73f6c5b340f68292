/** The desktop's list of a run's events. Live events are reconciled one by one, and
    lists read from storage are merged in; whatever the order, views that were told
    the same events show the same list. */
module EventView {
  import opened Basics

  datatype RunEvent = RunEvent(run: string, number: int, body: string)

  predicate Ascending(view: seq<RunEvent>) {
    |view| <= 1 || (view[0].number < view[1].number && Ascending(view[1..]))
  }

  predicate OfRun(view: seq<RunEvent>, run: string) {
    forall i :: 0 <= i < |view| ==> view[i].run == run
  }

  function At(view: seq<RunEvent>, number: int): (r: Option<RunEvent>)
    ensures r.Some? ==> r.value in view && r.value.number == number
  {
    if view == [] then None else if view[0].number == number then Some(view[0]) else At(view[1..], number)
  }

  /** Insertion by number; an equal number goes after, as a stable sort puts it. */
  function Insert(view: seq<RunEvent>, e: RunEvent): seq<RunEvent> {
    if view == [] || e.number < view[0].number then [e] + view else [view[0]] + Insert(view[1..], e)
  }

  /** The stable sort by number. */
  function Sort(events: seq<RunEvent>): seq<RunEvent> {
    if events == [] then [] else Insert(Sort(events[..|events| - 1]), events[|events| - 1])
  }

  lemma {:induction false} NotBefore(view: seq<RunEvent>, number: int)
    requires Ascending(view) && view != [] && number < view[0].number
    ensures At(view, number).None?
  {
    if |view| > 1 {
      NotBefore(view[1..], number);
    }
  }

  lemma {:induction false} InsertAscending(view: seq<RunEvent>, e: RunEvent)
    requires Ascending(view) && At(view, e.number).None?
    ensures Ascending(Insert(view, e)) && Insert(view, e) != []
    ensures Insert(view, e)[0].number == e.number || (view != [] && Insert(view, e)[0] == view[0])
  {
    if view == [] || e.number < view[0].number {
      assert Insert(view, e)[1..] == view;
    } else {
      InsertAscending(view[1..], e);
      assert Insert(view, e)[1..] == Insert(view[1..], e);
    }
  }

  lemma {:induction false} InsertAt(view: seq<RunEvent>, e: RunEvent, number: int)
    requires At(view, e.number).None?
    ensures At(Insert(view, e), number) == if number == e.number then Some(e) else At(view, number)
  {
    if view == [] || e.number < view[0].number {
      assert Insert(view, e)[1..] == view;
    } else {
      InsertAt(view[1..], e, number);
      assert Insert(view, e)[1..] == Insert(view[1..], e);
    }
  }

  lemma {:induction false} InsertOfRun(view: seq<RunEvent>, e: RunEvent, run: string)
    ensures OfRun(view, run) && e.run == run ==> OfRun(Insert(view, e), run)
  {
    if view != [] && !(e.number < view[0].number) {
      InsertOfRun(view[1..], e, run);
    }
  }

  /** Sorting what is already in order changes nothing. */
  lemma {:induction false} SortAscending(view: seq<RunEvent>)
    requires Ascending(view)
    ensures Sort(view) == view
  {
    if view != [] {
      var front, last := view[..|view| - 1], view[|view| - 1];
      AscendingFront(view);
      SortAscending(front);
      InsertLast(front, last);
    }
  }

  lemma {:induction false} AscendingFront(view: seq<RunEvent>)
    requires Ascending(view) && view != []
    ensures Ascending(view[..|view| - 1])
    ensures forall i :: 0 <= i < |view| - 1 ==> view[i].number < view[|view| - 1].number
  {
    if |view| > 1 {
      AscendingFront(view[1..]);
      assert view[..|view| - 1][1..] == view[1..][..|view| - 2];
      assert forall i :: 1 <= i < |view| ==> view[1..][i - 1] == view[i];
      assert view[0].number < view[1].number <= view[|view| - 1].number;
    }
  }

  lemma {:induction false} InsertLast(view: seq<RunEvent>, e: RunEvent)
    requires forall i :: 0 <= i < |view| ==> view[i].number < e.number
    ensures Insert(view, e) == view + [e]
  {
    if view != [] {
      assert view[0].number < e.number;
      InsertLast(view[1..], e);
      assert [view[0]] + (view[1..] + [e]) == view + [e];
    }
  }

  /** An ascending list is determined by what it holds for each number. */
  lemma {:induction false} AscendingUnique(xs: seq<RunEvent>, ys: seq<RunEvent>)
    requires Ascending(xs) && Ascending(ys) && forall n :: At(xs, n) == At(ys, n)
    ensures xs == ys
  {
    assert xs != [] ==> At(xs, xs[0].number).Some?;
    assert ys != [] ==> At(ys, ys[0].number).Some?;
    if xs != [] && ys != [] {
      var a, b := xs[0].number, ys[0].number;
      assert At(xs, a) == At(ys, a) && At(xs, b) == At(ys, b);
      if a < b {
        NotBefore(ys, a);
      } else if b < a {
        NotBefore(xs, b);
      }
      forall n ensures At(xs[1..], n) == At(ys[1..], n) {
        assert At(xs, n) == At(ys, n);
        if |xs| > 1 { NotBefore(xs[1..], a); }
        if |ys| > 1 { NotBefore(ys[1..], a); }
      }
      AscendingUnique(xs[1..], ys[1..]);
      assert xs == [xs[0]] + xs[1..] && ys == [ys[0]] + ys[1..];
    }
  }

  // ---------- The two operations ----------

  function Reconcile(view: seq<RunEvent>, incoming: RunEvent): seq<RunEvent> {
    if view != [] && view[0].run != incoming.run then view
    else if exists i :: 0 <= i < |view| && view[i].number == incoming.number then view
    else Sort(view + [incoming])
  }

  lemma {:induction false} AtExists(view: seq<RunEvent>, number: int)
    ensures At(view, number).Some? <==> exists i :: 0 <= i < |view| && view[i].number == number
  {
    if view != [] {
      AtExists(view[1..], number);
      assert forall i :: 1 <= i < |view| ==> view[1..][i - 1] == view[i];
      assert forall i :: 0 <= i < |view| - 1 ==> view[1..][i] == view[i + 1];
    }
  }

  /** The first event shown decides the run of a view; an empty view takes an event of any run. */
  predicate Admits(view: seq<RunEvent>, e: RunEvent) {
    view == [] || view[0].run == e.run
  }

  predicate OneRun(view: seq<RunEvent>) {
    view == [] || OfRun(view, view[0].run)
  }

  /** A live event is added in its place unless its number is already shown or the view is of another run. */
  lemma {:induction false} ReconcileExact(view: seq<RunEvent>, e: RunEvent, number: int)
    requires Ascending(view) && OneRun(view)
    ensures Ascending(Reconcile(view, e)) && OneRun(Reconcile(view, e))
    ensures At(Reconcile(view, e), number) ==
              if Admits(view, e) && number == e.number && At(view, number).None? then Some(e) else At(view, number)
    ensures Reconcile(view, e) != [] && Reconcile(view, e)[0].run == if view == [] then e.run else view[0].run
  {
    AtExists(view, e.number);
    if Admits(view, e) && At(view, e.number).None? {
      SortAscending(view);
      assert (view + [e])[..|view|] == view;
      InsertAscending(view, e);
      InsertAt(view, e, number);
      InsertOfRun(view, e, e.run);
    }
  }

  /** The last event of a run with a number, in list order. */
  function LastOf(events: seq<RunEvent>, run: string, number: int): (r: Option<RunEvent>)
    ensures r.Some? ==> r.value in events && r.value.run == run && r.value.number == number
  {
    if events == [] then None
    else
      var e := events[|events| - 1];
      if e.run == run && e.number == number then Some(e) else LastOf(events[..|events| - 1], run, number)
  }

  /** What the merge shows for a number: the stored event if there is one, else the one shown before. */
  function Merged(run: string, current: seq<RunEvent>, persisted: seq<RunEvent>, number: int): Option<RunEvent> {
    if LastOf(persisted, run, number).Some? then LastOf(persisted, run, number) else LastOf(current, run, number)
  }

  /** A map and the order in which its keys were first set. */
  datatype Table = Table(keys: seq<int>, events: map<int, RunEvent>)

  ghost predicate ValidTable(t: Table) {
    && (forall n :: n in t.keys <==> n in t.events)
    && (forall i, j :: 0 <= i < j < |t.keys| ==> t.keys[i] != t.keys[j])
  }

  function InTable(t: Table, number: int): Option<RunEvent> {
    if number in t.events then Some(t.events[number]) else None
  }

  /** Setting a key that is present keeps its place. */
  function SetKey(t: Table, e: RunEvent): Table {
    Table(if e.number in t.events then t.keys else t.keys + [e.number], t.events[e.number := e])
  }

  method Enter(run: string, start: Table, events: seq<RunEvent>) returns (t: Table)
    requires ValidTable(start) && forall n :: n in start.events ==> start.events[n].run == run && start.events[n].number == n
    ensures ValidTable(t) && forall n :: n in t.events ==> t.events[n].run == run && t.events[n].number == n
    ensures forall n :: InTable(t, n) ==
              if LastOf(events, run, n).Some? then LastOf(events, run, n) else InTable(start, n)
  {
    t := start;
    for i := 0 to |events|
      invariant ValidTable(t) && forall n :: n in t.events ==> t.events[n].run == run && t.events[n].number == n
      invariant forall n :: InTable(t, n) ==
                  if LastOf(events[..i], run, n).Some? then LastOf(events[..i], run, n) else InTable(start, n)
    {
      assert events[..i + 1][..i] == events[..i];
      if events[i].run == run {
        t := SetKey(t, events[i]);
      }
    }
    assert events[..|events|] == events;
  }

  method MergeRunEvents(run: string, current: seq<RunEvent>, persisted: seq<RunEvent>) returns (view: seq<RunEvent>)
    ensures Ascending(view) && OfRun(view, run)
    ensures forall n :: At(view, n) == Merged(run, current, persisted, n)
  {
    var t := Enter(run, Table([], map[]), current);
    t := Enter(run, t, persisted);
    view := [];
    for i := 0 to |t.keys|
      invariant Ascending(view) && OfRun(view, run)
      invariant forall n :: At(view, n) == if n in t.keys[..i] then InTable(t, n) else None
    {
      var n := t.keys[i];
      assert n in t.keys && n !in t.keys[..i];
      var e := t.events[n];
      InsertAscending(view, e);
      InsertOfRun(view, e, run);
      forall m ensures At(Insert(view, e), m) == if m == n then Some(e) else At(view, m) {
        InsertAt(view, e, m);
      }
      assert forall m :: m in t.keys[..i + 1] <==> m in t.keys[..i] || m == n;
      view := Insert(view, e);
    }
    assert t.keys[..|t.keys|] == t.keys;
  }

  // ---------- Convergence ----------

  /** A view that a merge of the previous one and a stored list may produce. */
  ghost predicate IsMerge(run: string, before: seq<RunEvent>, persisted: seq<RunEvent>, after: seq<RunEvent>) {
    Ascending(after) && OfRun(after, run) && forall n :: At(after, n) == Merged(run, before, persisted, n)
  }

  datatype Update = Live(event: RunEvent) | Stored(events: seq<RunEvent>)

  /** The views shown along a sequence of updates while one run is displayed; live events may be of any run. */
  ghost predicate Shows(run: string, updates: seq<Update>, views: seq<seq<RunEvent>>) {
    && |views| == |updates| + 1 && views[0] == []
    && forall i :: 0 <= i < |updates| ==> Follows(run, updates[i], views[i], views[i + 1])
  }

  ghost predicate Follows(run: string, u: Update, before: seq<RunEvent>, after: seq<RunEvent>) {
    match u
    case Live(e) => after == Reconcile(before, e)
    case Stored(events) => IsMerge(run, before, events, after)
  }

  lemma {:induction false} AtIsLast(view: seq<RunEvent>, run: string, n: int)
    requires Ascending(view) && OfRun(view, run)
    ensures LastOf(view, run, n) == At(view, n)
  {
    if view != [] {
      var front := view[..|view| - 1];
      AscendingFront(view);
      AtIsLast(front, run, n);
      AtSnoc(front, view[|view| - 1], n);
      assert front + [view[|view| - 1]] == view;
    }
  }

  lemma {:induction false} AtSnoc(front: seq<RunEvent>, e: RunEvent, n: int)
    requires forall i :: 0 <= i < |front| ==> front[i].number < e.number
    ensures At(front + [e], n) == if n == e.number then Some(e) else At(front, n)
  {
    if front == [] {
      assert (front + [e])[0] == e && (front + [e])[1..] == [];
    } else {
      assert front[0].number < e.number;
      assert (front + [e])[1..] == front[1..] + [e];
      AtSnoc(front[1..], e, n);
    }
  }

  /** An event of another run that meets an empty view, and so is shown. */
  ghost predicate Strays(run: string, updates: seq<Update>, views: seq<seq<RunEvent>>, k: nat)
    requires k < |updates| && k < |views|
  {
    updates[k].Live? && updates[k].event.run != run && views[k] == []
  }

  /** Whatever strayed in before has been cleared by a merge. */
  ghost predicate Clean(run: string, updates: seq<Update>, views: seq<seq<RunEvent>>, i: nat)
    requires i <= |updates| && i <= |views|
  {
    forall k :: 0 <= k < i && Strays(run, updates, views, k) ==> exists j :: k < j < i && updates[j].Stored?
  }

  lemma {:induction false} CleanStep(run: string, updates: seq<Update>, views: seq<seq<RunEvent>>, i: nat)
    requires i < |updates| && i < |views|
    ensures Clean(run, updates, views, i + 1) <==>
              updates[i].Stored? || (Clean(run, updates, views, i) && !Strays(run, updates, views, i))
  {
    if updates[i].Live? && Clean(run, updates, views, i + 1) {
      forall k | 0 <= k < i && Strays(run, updates, views, k) ensures exists j :: k < j < i && updates[j].Stored? {
        var j :| k < j < i + 1 && updates[j].Stored?;
        assert j < i;
      }
    }
    if Clean(run, updates, views, i) {
      forall k | 0 <= k < i && Strays(run, updates, views, k) ensures exists j :: k < j < i + 1 && updates[j].Stored? {
        var j :| k < j < i && updates[j].Stored?;
        assert j < i + 1;
      }
    }
  }

  /** Every view shown is in order, without duplicates and of one run, and that is the displayed run
      exactly if no event of another run has met an empty view since the last merge. */
  lemma {:induction false} ViewsInOrder(run: string, updates: seq<Update>, views: seq<seq<RunEvent>>, i: nat)
    requires Shows(run, updates, views) && i <= |updates|
    ensures Ascending(views[i]) && OneRun(views[i])
    ensures OfRun(views[i], run) <==> Clean(run, updates, views, i)
  {
    if i > 0 {
      var u, before, after := updates[i - 1], views[i - 1], views[i];
      ViewsInOrder(run, updates, views, i - 1);
      CleanStep(run, updates, views, i - 1);
      assert Follows(run, u, before, after);
      if u.Live? {
        ReconcileExact(before, u.event, 0);
      }
    }
  }

  /** The stored events of the latest merge keep their places: no later live event displaces them. */
  lemma {:induction false} StoredEventsWin(run: string, updates: seq<Update>, views: seq<seq<RunEvent>>, i: nat, j: nat, n: int)
    requires Shows(run, updates, views) && i < j <= |updates| && updates[i].Stored?
    requires forall k :: i < k < j ==> updates[k].Live?
    requires LastOf(updates[i].events, run, n).Some?
    ensures At(views[j], n) == LastOf(updates[i].events, run, n)
    decreases j
  {
    if j > i + 1 {
      StoredEventsWin(run, updates, views, i, j - 1, n);
      ViewsInOrder(run, updates, views, j - 1);
      var before, u := views[j - 1], updates[j - 1];
      assert Follows(run, u, before, views[j]);
      ReconcileExact(before, u.event, n);
    } else {
      ViewsInOrder(run, updates, views, i);
      assert Follows(run, updates[i], views[i], views[i + 1]);
    }
  }

  /** Whether an update delivers an event of the run with this number. */
  predicate Delivers(run: string, u: Update, n: int) {
    if u.Live? then u.event.run == run && u.event.number == n else LastOf(u.events, run, n).Some?
  }

  /** Whether one of the first `i` updates does. */
  ghost predicate Delivered(run: string, updates: seq<Update>, i: nat, n: int) {
    exists k :: 0 <= k < i && k < |updates| && Delivers(run, updates[k], n)
  }

  /** All copies of an event agree. */
  ghost predicate AgreeOn(run: string, u: Update, truth: int -> RunEvent) {
    if u.Live? then u.event.run == run ==> u.event == truth(u.event.number)
    else forall n :: LastOf(u.events, run, n).Some? ==> LastOf(u.events, run, n) == Some(truth(n))
  }

  /** No event of another run ever meets an empty view. */
  ghost predicate NoStrays(run: string, updates: seq<Update>, views: seq<seq<RunEvent>>) {
    |updates| < |views| && forall k :: 0 <= k < |updates| ==> !Strays(run, updates, views, k)
  }

  /** If copies agree, the view holds exactly the delivered events of the run. */
  lemma {:induction false} ViewIsUnion(
    run: string, updates: seq<Update>, views: seq<seq<RunEvent>>, truth: int -> RunEvent, i: nat, n: int)
    requires Shows(run, updates, views) && NoStrays(run, updates, views) && i <= |updates|
    requires forall k :: 0 <= k < |updates| ==> AgreeOn(run, updates[k], truth)
    ensures At(views[i], n) == if Delivered(run, updates, i, n) then Some(truth(n)) else None
  {
    if i > 0 {
      var u, before, after := updates[i - 1], views[i - 1], views[i];
      ViewIsUnion(run, updates, views, truth, i - 1, n);
      ViewsInOrder(run, updates, views, i - 1);
      assert Follows(run, u, before, after) && AgreeOn(run, u, truth) && !Strays(run, updates, views, i - 1);
      assert Clean(run, updates, views, i - 1) && OfRun(before, run);
      if u.Live? {
        ReconcileExact(before, u.event, n);
      } else {
        AtIsLast(before, run, n);
      }
      if Delivers(run, u, n) {
        assert exists k :: 0 <= k < i && Delivers(run, updates[k], n);
      }
    }
  }

  /** Convergence: two histories that deliver the same events, in any order and by any mix of live and
      stored updates, end in the same view. */
  lemma {:induction false} ViewsConverge(
    run: string, truth: int -> RunEvent,
    updates: seq<Update>, views: seq<seq<RunEvent>>, updates': seq<Update>, views': seq<seq<RunEvent>>)
    requires Shows(run, updates, views) && Shows(run, updates', views')
    requires NoStrays(run, updates, views) && NoStrays(run, updates', views')
    requires forall k :: 0 <= k < |updates| ==> AgreeOn(run, updates[k], truth)
    requires forall k :: 0 <= k < |updates'| ==> AgreeOn(run, updates'[k], truth)
    requires forall n :: Delivered(run, updates, |updates|, n) <==> Delivered(run, updates', |updates'|, n)
    ensures Last(views) == Last(views')
  {
    ViewsInOrder(run, updates, views, |updates|);
    ViewsInOrder(run, updates', views', |updates'|);
    forall n ensures At(Last(views), n) == At(Last(views'), n) {
      ViewIsUnion(run, updates, views, truth, |updates|, n);
      ViewIsUnion(run, updates', views', truth, |updates'|, n);
    }
    AscendingUnique(Last(views), Last(views'));
  }

  /** The last event of the run with this number. */
  ghost predicate LastAt(events: seq<RunEvent>, run: string, number: int, i: nat) {
    && i < |events| && events[i].run == run && events[i].number == number
    && forall j :: i < j < |events| ==> !(events[j].run == run && events[j].number == number)
  }

  lemma {:induction false} LastIsFound(events: seq<RunEvent>, run: string, number: int, i: nat)
    requires LastAt(events, run, number, i)
    ensures LastOf(events, run, number) == Some(events[i])
  {
    if i < |events| - 1 {
      var front := events[..|events| - 1];
      assert forall j :: 0 <= j < |front| ==> front[j] == events[j];
      LastIsFound(front, run, number, i);
    }
  }

  lemma {:induction false} FoundIsLast(events: seq<RunEvent>, run: string, number: int) returns (i: nat)
    requires LastOf(events, run, number).Some?
    ensures LastAt(events, run, number, i) && events[i] == LastOf(events, run, number).value
  {
    i := |events| - 1;
    if !(events[i].run == run && events[i].number == number) {
      var front := events[..i];
      assert forall j :: 0 <= j < |front| ==> front[j] == events[j];
      i := FoundIsLast(front, run, number);
    }
  }

  /** The stored event that counts for a number is the last one of the run with it. */
  lemma {:induction false} LastOfExactly(events: seq<RunEvent>, run: string, number: int, e: RunEvent)
    ensures LastOf(events, run, number) == Some(e) <==> exists i: nat :: LastAt(events, run, number, i) && events[i] == e
  {
    if LastOf(events, run, number).Some? {
      var i := FoundIsLast(events, run, number);
    }
    forall i: nat | LastAt(events, run, number, i) ensures LastOf(events, run, number) == Some(events[i]) {
      LastIsFound(events, run, number, i);
    }
  }

  /** What a merge shows for a number: the last stored event of the run with it, or else what was shown. */
  lemma {:induction false} MergedExactly(run: string, current: seq<RunEvent>, persisted: seq<RunEvent>, number: int)
    ensures var kept := exists i :: 0 <= i < |persisted| && persisted[i].run == run && persisted[i].number == number;
            Merged(run, current, persisted, number) == LastOf(if kept then persisted else current, run, number)
  {
    var stored := LastOf(persisted, run, number);
    if stored.Some? {
      var i := FoundIsLast(persisted, run, number);
    } else {
      NoneStored(persisted, run, number);
    }
  }

  lemma {:induction false} NoneStored(events: seq<RunEvent>, run: string, number: int)
    requires LastOf(events, run, number).None?
    ensures forall i :: 0 <= i < |events| ==> !(events[i].run == run && events[i].number == number)
  {
    if events != [] {
      NoneStored(events[..|events| - 1], run, number);
      assert forall i :: 0 <= i < |events| - 1 ==> events[..|events| - 1][i] == events[i];
    }
  }
}
