/** The entry points of the delivery engine as the service runs them: loops that dispatch
    one row after another, proved against the table transformations of `Webhooks`. */
module WebhookService {
  import opened Common
  import opened Iso
  import opened Webhooks

  datatype Recovery = Refused | Recovery(total: nat, replayed: nat, skipped: nat)

  class Service {
    const cfg: Config
    var tab: Table

    constructor (cfg: Config)
      ensures this.cfg == cfg && tab == map[]
    {
      this.cfg := cfg;
      tab := map[];
    }

    /** create_delivery; parsed is what Python's fromisoformat makes of the timestamp. It reads more
        layouts than isoformat prints, but reads the printed ones as `FromIso` does. */
    method CreateDelivery(id: Id, w: Webhook, e: Event, text: string, parsed: Option<Stamp>, ctx: Context)
      returns (created: bool)
      requires FromIso(text).Some? ==> parsed == FromIso(text)
      modifies this
      ensures created <==> parsed.Some? && id !in old(tab) && !KeyTaken(old(tab), Key(w.id, e, text))
      ensures !created ==> tab == old(tab)
      ensures created ==> tab == old(tab)[id := Tracked(Fresh(w, e, parsed.value, ctx).(key := Key(w.id, e, text)), [])]
      ensures forall stamp: Stamp :: stamp.Valid() && text == IsoFormat(stamp) ==>
                tab == Create(old(tab), id, Fresh(w, e, stamp, ctx))
    {
      var key := Key(w.id, e, text);
      forall s: Stamp | s.Valid() && text == IsoFormat(s) ensures parsed == Some(s) { IsoRoundTrip(s); }
      if parsed.None? || id in tab || KeyTaken(tab, key) {
        return false;
      }
      tab := tab[id := Tracked(Delivery(w, e, parsed.value, key, ctx, Pending, 0, None, None, None, None), [])];
      created := true;
    }

    method DispatchDelivery(id: Id, r: Reply)
      modifies this
      ensures tab == BareDispatch(cfg, old(tab), id, r)
    {
      if id !in tab { return; }
      var d := tab[id].row;
      d := d.(attempts := d.attempts + 1);
      d := d.(status := if d.attempts > 1 then Retrying else Pending);
      var posts := tab[id].posts + [r.at];
      if r.outcome.Response? { d := d.(code := Some(r.outcome.code)); }
      if Succeeds(r.outcome) {
        d := d.(status := Success, deliveredAt := Some(r.at), nextRetryAt := None);
      } else if TerminalCode(d.code) {
        d := d.(status := DeadLetter, deadLetteredAt := Some(r.at), nextRetryAt := None);
      } else {
        var retryIndex := d.attempts - 1;
        if retryIndex < MaxRetries(d.webhook) && retryIndex < |cfg.delays| {
          d := d.(nextRetryAt := Some(r.at + Delay(cfg, retryIndex)), status := Retrying);
        } else {
          d := d.(status := DeadLetter, deadLetteredAt := Some(r.at), nextRetryAt := None);
        }
      }
      tab := tab[id := Tracked(d, posts)];
    }

    /** retry_pending_deliveries: the due rows are read once, then dispatched in any order. */
    method RetryPending(now: int, net: Id -> Reply) returns (count: nat)
      modifies this
      ensures tab == Sweep(cfg, old(tab), now, net)
      ensures count == |set id | id in old(tab) && Due(old(tab)[id].row, now)|
    {
      var due := set id | id in tab && Due(tab[id].row, now);
      count := DispatchEach(due, net);
      SweepIsPostSet(cfg, old(tab), now, due, net);
    }

    method DispatchEach(ids: set<Id>, net: Id -> Reply) returns (count: nat)
      requires ids <= tab.Keys
      modifies this
      ensures tab == PostSet(cfg, old(tab), ids, net) && count == |ids|
    {
      hide Post, PostSet;
      var todo := ids;
      ghost var done := {};
      count := 0;
      EmptySets(cfg, tab, net);
      while todo != {}
        invariant done !! todo && done + todo == ids && count == |done|
        invariant tab == PostSet(cfg, old(tab), done, net)
      {
        var id := Pick(todo);
        PostGrows(cfg, old(tab), done, id, net);
        DispatchDelivery(id, net(id));
        todo, done := todo - {id}, done + {id};
        count := count + 1;
      }
    }

    method ReplayDeadLetter(id: Id, r: Reply) returns (ok: bool)
      modifies this
      ensures ok <==> id in old(tab) && old(tab)[id].row.status == DeadLetter
      ensures tab == if id in old(tab) then old(tab)[id := Replayed(cfg, old(tab)[id], r)] else old(tab)
    {
      if id !in tab || tab[id].row.status != DeadLetter {
        return false;
      }
      var d := tab[id].row;
      d := d.(status := Pending, attempts := 0, nextRetryAt := None, deadLetteredAt := None,
              code := None, deliveredAt := None);
      tab := tab[id := tab[id].(row := d)];
      DispatchDelivery(id, r);
      ok := true;
    }

    /** replay_deliveries_by_event_context: any `limit` of the matching dead letters. */
    method ReplayByContext(e: Event, device: Option<string>, outage: Option<string>, limit: nat, net: Id -> Reply)
      returns (count: nat, ghost chosen: set<Id>)
      modifies this
      ensures forall id :: id in chosen ==> id in old(tab) && InContext(old(tab)[id].row, e, device, outage)
      ensures count == |chosen| ==
                Min(limit, |set id | id in old(tab) && InContext(old(tab)[id].row, e, device, outage)|)
      ensures tab == ReplaySet(cfg, old(tab), chosen, net)
    {
      var matching := set id | id in tab && InContext(tab[id].row, e, device, outage);
      count, chosen := ReplayEach(matching, limit, net);
    }

    method ReplayEach(ids: set<Id>, limit: nat, net: Id -> Reply) returns (count: nat, ghost chosen: set<Id>)
      requires forall id :: id in ids ==> id in tab && tab[id].row.status == DeadLetter
      modifies this
      ensures chosen <= ids && count == |chosen| == Min(limit, |ids|)
      ensures tab == ReplaySet(cfg, old(tab), chosen, net)
    {
      hide Replayed, ReplaySet;
      var todo := ids;
      count, chosen := 0, {};
      EmptySets(cfg, tab, net);
      while todo != {} && count < limit
        invariant chosen !! todo && chosen + todo == ids
        invariant count == |chosen| <= limit
        invariant tab == ReplaySet(cfg, old(tab), chosen, net)
      {
        var id := Pick(todo);
        ReplayGrows(cfg, old(tab), chosen, id, net);
        var ok := ReplayDeadLetter(id, net(id));
        if ok { count := count + 1; }
        todo, chosen := todo - {id}, chosen + {id};
      }
      assert |ids| == |chosen| + |todo|;
    }

    /** recover_deliveries_in_window: an inverted window is refused. */
    method RecoverWindow(lo: Stamp, hi: Stamp, net: Id -> Reply) returns (res: Recovery)
      modifies this
      ensures res == Refused <==> hi.Ticks() < lo.Ticks()
      ensures lo.Valid() && hi.Valid() ==> (res == Refused <==> Earlier(hi, lo))
      ensures res == Refused ==> tab == old(tab)
      ensures res != Refused ==>
                && tab == Recover(cfg, old(tab), lo, hi, net)
                && res.total == res.replayed + res.skipped
                && res.replayed == |set id | id in old(tab) && InWindow(old(tab)[id].row, lo, hi)
                     && old(tab)[id].row.status != Success|
                && res.skipped == |set id | id in old(tab) && InWindow(old(tab)[id].row, lo, hi)
                     && old(tab)[id].row.status == Success|
    {
      hide Recovered, InWindow;
      if lo.Valid() && hi.Valid() { TicksOrder(hi, lo); }
      if hi.Ticks() < lo.Ticks() {
        return Refused;
      }
      var candidates := set id | id in tab && InWindow(tab[id].row, lo, hi);
      var replayed, skipped := RecoverEach(candidates, net);
      res := Recovery(|candidates|, replayed, skipped);
      assert Unfinished(old(tab), candidates) ==
             set id | id in old(tab) && InWindow(old(tab)[id].row, lo, hi) && old(tab)[id].row.status != Success;
      assert candidates - Unfinished(old(tab), candidates) ==
             set id | id in old(tab) && InWindow(old(tab)[id].row, lo, hi) && old(tab)[id].row.status == Success;
    }

    method RecoverEach(ids: set<Id>, net: Id -> Reply) returns (replayed: nat, skipped: nat)
      requires ids <= tab.Keys
      modifies this
      ensures tab == RecoverSet(cfg, old(tab), ids, net)
      ensures replayed == |Unfinished(old(tab), ids)| && skipped == |ids - Unfinished(old(tab), ids)|
      ensures replayed + skipped == |ids|
    {
      hide RecoverSet, Recovered, Unfinished;
      var todo := ids;
      ghost var done := {};
      replayed, skipped := 0, 0;
      RecoverNone(cfg, tab, net);
      while todo != {}
        invariant done !! todo && done + todo == ids
        invariant replayed == |Unfinished(old(tab), done)| && replayed + skipped == |done|
        invariant tab == RecoverSet(cfg, old(tab), done, net)
      {
        var id := Pick(todo);
        RecoverGrows(cfg, old(tab), done, id, net);
        var ok := RecoverOne(id, net(id));
        if ok { replayed := replayed + 1; } else { skipped := skipped + 1; }
        todo, done := todo - {id}, done + {id};
      }
      UnfinishedOf(old(tab), ids);
    }

    method RecoverOne(id: Id, r: Reply) returns (ok: bool)
      requires id in tab
      modifies this
      ensures tab == old(tab)[id := Recovered(cfg, old(tab)[id], r)]
      ensures ok <==> old(tab)[id].row.status != Success
    {
      hide Post;
      if tab[id].row.status == Success {
        return false;
      }
      if tab[id].row.status == DeadLetter {
        ok := ReplayDeadLetter(id, r);
      } else {
        tab := tab[id := tab[id].(row := tab[id].row.(status := Pending, nextRetryAt := None, deadLetteredAt := None))];
        DispatchDelivery(id, r);
        ok := true;
      }
    }
  }

  ghost function Unfinished(tab: Table, ids: set<Id>): set<Id> {
    set id | id in ids && id in tab && tab[id].row.status != Success
  }

  lemma UnfinishedOf(tab: Table, ids: set<Id>)
    ensures |Unfinished(tab, ids)| + |ids - Unfinished(tab, ids)| == |ids|
    ensures ids == {} ==> Unfinished(tab, ids) == {}
  {
    assert ids == Unfinished(tab, ids) + (ids - Unfinished(tab, ids));
  }

  lemma UnfinishedGrows(tab: Table, ids: set<Id>, id: Id)
    requires id in tab && id !in ids
    ensures |Unfinished(tab, ids + {id})| == |Unfinished(tab, ids)| + (if tab[id].row.status != Success then 1 else 0)
  {
    if tab[id].row.status != Success {
      assert Unfinished(tab, ids + {id}) == Unfinished(tab, ids) + {id};
    } else {
      assert Unfinished(tab, ids + {id}) == Unfinished(tab, ids);
    }
  }

  lemma SweepIsPostSet(cfg: Config, tab: Table, now: int, due: set<Id>, net: Id -> Reply)
    requires due == set id | id in tab && Due(tab[id].row, now)
    ensures Sweep(cfg, tab, now, net) == PostSet(cfg, tab, due, net)
  {
    hide Post, Due;
    var a, b := Sweep(cfg, tab, now, net), PostSet(cfg, tab, due, net);
    assert a.Keys == tab.Keys == b.Keys;
    forall id | id in tab ensures a[id] == b[id] {
      assert id in due <==> Due(tab[id].row, now);
    }
  }

  lemma EmptySets(cfg: Config, tab: Table, net: Id -> Reply)
    ensures PostSet(cfg, tab, {}, net) == tab && ReplaySet(cfg, tab, {}, net) == tab
    ensures RecoverSet(cfg, tab, {}, net) == tab
  {
  }

  lemma RecoverNone(cfg: Config, tab: Table, net: Id -> Reply)
    ensures RecoverSet(cfg, tab, {}, net) == tab && Unfinished(tab, {}) == {}
  {
    EmptySets(cfg, tab, net);
  }

  // Treating one more delivery of a set extends the treatment of the set.

  lemma PostGrows(cfg: Config, tab: Table, ids: set<Id>, id: Id, net: Id -> Reply)
    requires id in tab && id !in ids
    ensures id in PostSet(cfg, tab, ids, net) && PostSet(cfg, tab, ids, net)[id] == tab[id]
    ensures PostSet(cfg, tab, ids, net)[id := Post(cfg, tab[id], net(id))] == PostSet(cfg, tab, ids + {id}, net)
  {
    hide Post;
  }

  lemma ReplayGrows(cfg: Config, tab: Table, ids: set<Id>, id: Id, net: Id -> Reply)
    requires id in tab && id !in ids
    ensures id in ReplaySet(cfg, tab, ids, net) && ReplaySet(cfg, tab, ids, net)[id] == tab[id]
    ensures ReplaySet(cfg, tab, ids, net)[id := Replayed(cfg, tab[id], net(id))] == ReplaySet(cfg, tab, ids + {id}, net)
  {
    hide Replayed;
  }

  lemma RecoverGrows(cfg: Config, tab: Table, ids: set<Id>, id: Id, net: Id -> Reply)
    requires id in tab && id !in ids
    ensures id in RecoverSet(cfg, tab, ids, net) && RecoverSet(cfg, tab, ids, net)[id] == tab[id]
    ensures RecoverSet(cfg, tab, ids, net)[id := Recovered(cfg, tab[id], net(id))] ==
              RecoverSet(cfg, tab, ids + {id}, net)
    ensures |Unfinished(tab, ids + {id})| == |Unfinished(tab, ids)| + (if tab[id].row.status != Success then 1 else 0)
  {
    hide Recovered;
    UnfinishedGrows(tab, ids, id);
  }
}
