/** A tick that nobody interrupts is one path of the run protocol. */
module TickPath {
  import opened Common
  import opened ExecRepo
  import opened RunProtocol
  import opened RunnerPath
  import Dispatch
  import Tick

  lemma FollowOneMore(s: State, ev: seq<Event>, table: Table, e: Event)
    requires Follow(s, ev) == Some(s.(table := table)) && Enabled(s.(table := table), e)
    ensures Follow(s, ev + [e]) == Some(Apply(s.(table := table), e))
  {
    assert (ev + [e])[..|ev|] == ev;
  }

  /** Each insert that does not fail is one step. */
  lemma {:induction false} QueuePath(s: State, attempts: seq<(int, int)>, fails: set<nat>) returns (ev: seq<Event>)
    ensures Follow(s, ev) == Some(s.(table := Dispatch.QueueAll(s.table, attempts, fails))) && KeepsConfig(ev)
  {
    if attempts == [] { return []; }
    var n := |attempts| - 1;
    ev := QueuePath(s, attempts[..n], fails);
    if n !in fails {
      var e := Queue(attempts[n].0, attempts[n].1);
      FollowOneMore(s, ev, Dispatch.QueueAll(s.table, attempts[..n], fails), e);
      ev := ev + [e];
    }
  }

  /** The table before the last row of the listing was dealt with. */
  lemma BeforeLast(t: Table, after: Table, listed: seq<Dispatch.PendingRun>, handed: seq<Dispatch.Handover>)
    returns (mid: Table)
    requires listed != [] && Dispatch.OnlySkips(t, after, listed, handed)
    requires forall i :: 0 <= i < |listed| ==> IsPending(t, listed[i].id)
    requires forall i, j :: 0 <= i < j < |listed| ==> listed[i].id != listed[j].id
    ensures var n := |listed| - 1;
            && Dispatch.OnlySkips(t, mid, listed[..n], handed[..n])
            && after == if handed[n] == Dispatch.SkippedBusy then SkipRun(mid, listed[n].id) else mid
  {
    var n := |listed| - 1;
    var id := listed[n].id;
    mid := after.(rows := after.rows[id := t.rows[id]]);
    assert listed == listed[..n] + [listed[n]];
    Tick.NamesOneMore(listed[..n], listed[n]);
    assert after.rows == if handed[n] == Dispatch.SkippedBusy then SkipRun(mid, id).rows else mid.rows;
  }

  /** Each skip statement that does not fail is one step. */
  lemma {:induction false} SkipPath(s: State, before: seq<Event>, t: Table, after: Table,
                                    listed: seq<Dispatch.PendingRun>, handed: seq<Dispatch.Handover>)
    returns (ev: seq<Event>)
    requires Follow(s, before) == Some(s.(table := t)) && KeepsConfig(before)
    requires Dispatch.OnlySkips(t, after, listed, handed)
    requires forall i :: 0 <= i < |listed| ==> IsPending(t, listed[i].id)
    requires forall i, j :: 0 <= i < j < |listed| ==> listed[i].id != listed[j].id
    ensures Follow(s, ev) == Some(s.(table := after)) && KeepsConfig(ev)
    decreases |listed|
  {
    if listed == [] {
      assert after.rows == t.rows;
      return before;
    }
    var n := |listed| - 1;
    var mid := BeforeLast(t, after, listed, handed);
    ev := SkipPath(s, before, t, mid, listed[..n], handed[..n]);
    if handed[n] == Dispatch.SkippedBusy {
      FollowOneMore(s, ev, mid, DispatcherSkip(listed[n].id));
      ev := ev + [DispatcherSkip(listed[n].id)];
    }
  }

  lemma ListedArePending(t: Table, jobs: map<int, Dispatch.PendingJob>, now: int, limit: int,
                         listed: seq<Dispatch.PendingRun>)
    requires Dispatch.IsListing(t, jobs, now, limit, listed)
    ensures forall i :: 0 <= i < |listed| ==> IsPending(t, listed[i].id)
    ensures forall i, j :: 0 <= i < j < |listed| ==> listed[i].id != listed[j].id
  {
    forall i | 0 <= i < |listed| ensures IsPending(t, listed[i].id) {
      assert Dispatch.Eligible(t, jobs, now, listed[i].id);
    }
    forall i, j | 0 <= i < j < |listed| ensures listed[i].id != listed[j].id {
      assert Dispatch.Before(t, jobs, listed[i].id, listed[j].id);
    }
  }

  lemma HandedPath(s: State, before: seq<Event>, filled: Table, after: Table, jobs: map<int, Dispatch.PendingJob>,
                   now: int, quota: int, skip: set<nat>, r: Tick.Result) returns (ev: seq<Event>)
    requires Follow(s, before) == Some(s.(table := filled)) && KeepsConfig(before)
    requires Tick.Handed(filled, after, jobs, now, quota, skip, r)
    ensures Follow(s, ev) == Some(s.(table := after)) && KeepsConfig(ev)
  {
    if quota > 0 { ListedArePending(filled, jobs, now, Dispatch.Limit(quota), r.listed); }
    ev := SkipPath(s, before, filled, after, r.listed, r.handed);
  }

  /**
  What one tick does to the table when nobody else is at work, whichever of its
  statements fail, some sequence of protocol steps does.
  */
  lemma TickIsAPath(s: State, d: Tick.Dispatcher, pulse: Option<int>, now: int, listings: Tick.Listings,
                    faults: Tick.Faults, after: Table, ok: bool, r: Tick.Result) returns (ev: seq<Event>)
    requires d.Leaves(s.table, pulse, now, listings, faults, after, ok, r)
    ensures Follow(s, ev) == Some(s.(table := after)) && KeepsConfig(ev)
  {
    if d.dryRun || !d.Opens(faults, listings) { return []; }
    var wanted := d.Wanted(pulse, now, listings);
    var filled := Dispatch.QueueAll(s.table, wanted, faults.queue);
    ev := QueuePath(s, wanted, faults.queue);
    if ok {
      var quota := Tick.Quota(filled, d.maxConcurrent);
      ev := HandedPath(s, ev, filled, after, listings.pending, now, quota, faults.skip, r);
    }
  }
}
