/**
 * The sliding-window limiter of pxcutils/pxc/utils/FloodControlStrict.h.  It keeps only the
 * recent events, moves a position per limit, and skips updates that cannot matter; history
 * is the list of all events ever added.  Times are reals.  The results: if no event is added
 * before get_wakeup_at(), no limit is ever exceeded, and get_wakeup_at() is the exact border.
 */
module FloodControlStrict {
  /** No more than count events in each duration. */
  datatype Limit = Limit(duration: real, count: nat, pos: nat)

  const MAX_SIZE: nat := 0xFFFF_FFFF_FFFF_FFFF

  function Max(a: real, b: real): real { if a < b then b else a }

  // ----- what is promised of a list of events

  ghost predicate NonDecreasing(all: seq<real>) {
    forall i, j :: 0 <= i <= j < |all| ==> all[i] <= all[j]
  }

  /** Any count + 1 consecutive events span at least the duration. */
  ghost predicate Respects(all: seq<real>, l: Limit) {
    forall i :: 0 <= i < |all| - l.count ==> SpanAt(all, l, i)
  }

  ghost predicate SpanAt(all: seq<real>, l: Limit, i: nat)
    requires i + l.count < |all|
  {
    all[i + l.count] - all[i] >= l.duration
  }

  /** An event at time t would respect the limit. */
  ghost predicate Allows(all: seq<real>, l: Limit, t: real) {
    l.count <= |all| && l.count > 0 ==> t - all[|all| - l.count] >= l.duration
  }

  lemma RespectsOneMore(all: seq<real>, l: Limit, t: real)
    requires Respects(all, l) && Allows(all, l, t) && l.count > 0
    ensures Respects(all + [t], l)
  {
    var more := all + [t];
    forall i | 0 <= i < |more| - l.count ensures SpanAt(more, l, i) {
      if i < |all| - l.count { assert SpanAt(all, l, i); }
    }
  }

  // ----- what the positions mean

  /** Events before position p are too many to matter or too old to matter. */
  ghost predicate Passed(all: seq<real>, l: Limit, p: nat) {
    p <= |all| && forall j :: 0 <= j < p ==> j + l.count < |all| || all[j] + l.duration <= all[|all| - 1]
  }

  /** More than w further events are free, or the wake-up time waits for the event at p. */
  ghost predicate Waits(all: seq<real>, l: Limit, p: nat, w: nat, wakeup: real) {
    || l.count + p > |all| + w
    || (w == 0 && l.count + p == |all| && p < |all| && wakeup >= all[p] + l.duration)
  }

  /** With such a position the wake-up time is late enough. */
  lemma WaitsAllows(all: seq<real>, l: Limit, p: nat, w: nat, wakeup: real, t: real)
    requires Passed(all, l, p) && Waits(all, l, p, w, wakeup) && t >= wakeup && (all != [] ==> t >= all[|all| - 1])
    ensures Allows(all, l, t)
  {
  }

  lemma PassedOneMore(all: seq<real>, l: Limit, p: nat, t: real)
    requires Passed(all, l, p) && (all != [] ==> t >= all[|all| - 1])
    ensures Passed(all + [t], l, p)
  {
  }

  /** The wake-up time is no later than a limit requires. */
  ghost predicate Forced(all: seq<real>, limits: seq<Limit>, gap: nat, wakeup: real) {
    exists i :: 0 <= i < |limits| && ForcedBy(all, limits[i], gap, wakeup)
  }

  ghost predicate ForcedBy(all: seq<real>, l: Limit, gap: nat, wakeup: real) {
    l.count > 0 && l.count + gap + l.pos == |all| && wakeup == all[gap + l.pos] + l.duration
  }

  /** The events that are kept are the last ones. */
  ghost predicate Kept(events: seq<real>, all: seq<real>) {
    |events| <= |all| && forall k :: 0 <= k < |events| ==> KeptAt(events, all, k)
  }

  ghost predicate KeptAt(events: seq<real>, all: seq<real>, k: nat)
    requires k < |events| <= |all|
  {
    events[k] == all[|all| - |events| + k]
  }

  ghost predicate Due(all: seq<real>, limits: seq<Limit>, gap: nat, wakeup: real) {
    wakeup <= 0.0 || (all != [] && wakeup <= all[|all| - 1]) || Forced(all, limits, gap, wakeup)
  }

  ghost predicate LimitOK(all: seq<real>, l: Limit, gap: nat, w: nat, wakeup: real) {
    l.count > 0 && Respects(all, l) && Passed(all, l, gap + l.pos) && Waits(all, l, gap + l.pos, w, wakeup)
  }

  ghost predicate LimitsOK(all: seq<real>, limits: seq<Limit>, gap: nat, w: nat, wakeup: real) {
    forall i :: 0 <= i < |limits| ==> LimitOK(all, limits[i], gap, w, wakeup)
  }

  lemma NoEventsOK(all: seq<real>, limits: seq<Limit>, duration: real, count: nat, w: nat, wakeup: real)
    requires all == [] && LimitsOK(all, limits, 0, w, wakeup) && count > 0 && Due(all, limits, 0, wakeup)
    ensures LimitsOK(all, limits + [Limit(duration, count, 0)], 0, 0, wakeup) && wakeup <= 0.0
  {
    var more := limits + [Limit(duration, count, 0)];
    forall i | 0 <= i < |more| ensures LimitOK(all, more[i], 0, 0, wakeup) {
      if i < |limits| { assert LimitOK(all, limits[i], 0, w, wakeup); }
    }
  }

  class FloodControlStrict {
    var wakeupAt: real
    var withoutUpdate: nat
    var events: seq<real>
    var limits: seq<Limit>
    ghost var all: seq<real>

    ghost function Gap(): nat
      requires |events| <= |all|
      reads this
    {
      |all| - |events|
    }

    ghost predicate Valid()
      reads this
    {
      && Kept(events, all) && NonDecreasing(all)
      && LimitsOK(all, limits, Gap(), withoutUpdate, wakeupAt)
      && Due(all, limits, Gap(), wakeupAt)
    }

    constructor ()
      ensures Valid() && all == [] && limits == [] && wakeupAt == 0.0
    {
      wakeupAt, withoutUpdate, events, limits, all := 0.0, 0, [], [], [];
    }

    /** Limits are fixed before the first event. */
    method AddLimit(duration: real, count: nat)
      requires Valid() && all == [] && count > 0
      modifies this
      ensures Valid() && all == [] && wakeupAt == old(wakeupAt)
      ensures limits == old(limits) + [Limit(duration, count, 0)]
    {
      NoEventsOK(all, limits, duration, count, withoutUpdate, wakeupAt);
      limits := limits + [Limit(duration, count, 0)];
      withoutUpdate := 0;
    }

    function GetWakeupAt(): real reads this { wakeupAt }

    method ClearEvents()
      requires Valid()
      modifies this
      ensures Valid() && all == [] && wakeupAt == 0.0 && |limits| == old(|limits|)
      ensures forall i :: 0 <= i < |limits| ==> limits[i] == old(limits[i]).(pos := 0)
    {
      events, all := [], [];
      ghost var was := limits;
      var i := 0;
      while i < |limits|
        invariant i <= |limits| == |was| && events == [] && all == []
        invariant forall k :: 0 <= k < i ==> was[k].count > 0
        invariant forall k :: 0 <= k < |limits| ==> limits[k] == if k < i then was[k].(pos := 0) else was[k]
      {
        assert LimitOK(old(all), was[i], old(Gap()), old(withoutUpdate), old(wakeupAt));
        limits := limits[i := limits[i].(pos := 0)];
        i := i + 1;
      }
      withoutUpdate, wakeupAt := 0, 0.0;
    }

    /** The limit's position moves over the events that are too many or too old. */
    method AdvanceLimit(limit: Limit, now: real) returns (l: Limit)
      requires Kept(events, all) && all != [] && now == all[|all| - 1] && Passed(all, limit, Gap() + limit.pos)
      ensures l == limit.(pos := l.pos) && l.pos <= |events| && Passed(all, l, Gap() + l.pos)
      ensures limit.count + l.pos >= |events|
    {
      l := limit;
      if l.count < |events| - l.pos {
        l := l.(pos := |events| - l.count);
      }
      while l.pos < |events| && events[l.pos] < now - l.duration
        invariant l == limit.(pos := l.pos) && l.pos <= |events| && Passed(all, l, Gap() + l.pos)
        invariant limit.count + l.pos >= |events|
        decreases |events| - l.pos
      {
        assert KeptAt(events, all, l.pos);
        l := l.(pos := l.pos + 1);
      }
    }

    /** One turn of update's loop. */
    method UpdateOne(i: nat, now: real)
      requires i < |limits| && all != [] && now == all[|all| - 1] && Kept(events, all)
      requires Updated(all, limits, Gap(), withoutUpdate, wakeupAt, i)
      modifies this`limits, this`withoutUpdate, this`wakeupAt
      ensures |limits| == old(|limits|) && Updated(all, limits, Gap(), withoutUpdate, wakeupAt, i + 1) && wakeupAt >= old(wakeupAt)
      ensures limits == old(limits)[i := limits[i]] && limits[i] == old(limits[i]).(pos := limits[i].pos) && limits[i].pos <= |events|
    {
      ghost var limits0, w0, wakeup0 := limits, withoutUpdate, wakeupAt;
      assert ToUpdate(all, limits[i], Gap());
      var limit := AdvanceLimit(limits[i], now);
      limits := limits[i := limit];
      if limit.count + limit.pos <= |events| {
        assert limit.count + limit.pos == |events|;
        assert KeptAt(events, all, limit.pos);
        wakeupAt := Max(wakeupAt, events[limit.pos] + limit.duration);
        withoutUpdate := 0;
      } else {
        var free := limit.count + limit.pos - |events| - 1;
        withoutUpdate := if free < withoutUpdate then free else withoutUpdate;
      }
      UpdatedOneMore(all, limits0, Gap(), w0, wakeup0, i, limit, withoutUpdate, wakeupAt);
    }

    method Update(now: real)
      requires all != [] && now == all[|all| - 1] && Kept(events, all) && NonDecreasing(all) && wakeupAt <= now
      requires forall i :: 0 <= i < |limits| ==> ToUpdate(all, limits[i], Gap())
      modifies this`limits, this`withoutUpdate, this`wakeupAt, this`events
      ensures Valid() && SameLimits(limits, old(limits)) && wakeupAt >= old(wakeupAt)
    {
      var minPos := |events|;
      withoutUpdate := MAX_SIZE;
      var i := 0;
      while i < |limits|
        invariant i <= |limits| && SameLimits(limits, old(limits)) && minPos <= |events| && events == old(events)
        invariant wakeupAt >= old(wakeupAt)
        invariant Updated(all, limits, Gap(), withoutUpdate, wakeupAt, i)
        invariant forall k :: 0 <= k < i ==> minPos <= limits[k].pos
      {
        UpdateOne(i, now);
        minPos := if limits[i].pos < minPos then limits[i].pos else minPos;
        i := i + 1;
      }
      if minPos * 2 > |events| {
        Trim(minPos);
      }
    }

    /** Dropping the events that no position needs. */
    method Trim(minPos: nat)
      requires Kept(events, all) && minPos <= |events| && forall k :: 0 <= k < |limits| ==> minPos <= limits[k].pos
      requires all != [] && Updated(all, limits, Gap(), withoutUpdate, wakeupAt, |limits|)
      modifies this`limits, this`events
      ensures Kept(events, all) && SameLimits(limits, old(limits))
      ensures Updated(all, limits, Gap(), withoutUpdate, wakeupAt, |limits|)
    {
      ghost var limits0, gap0 := limits, Gap();
      KeptTail(events, all, minPos);
      MoveBack(minPos);
      UpdatedTrimmed(all, limits0, limits, gap0, minPos, withoutUpdate, wakeupAt);
      events := events[minPos..];
    }

    /** limit.pos_ -= min_pos */
    method MoveBack(minPos: nat)
      requires forall k :: 0 <= k < |limits| ==> minPos <= limits[k].pos
      modifies this`limits
      ensures |limits| == old(|limits|)
      ensures forall k :: 0 <= k < |limits| ==> limits[k] == old(limits[k]).(pos := old(limits[k]).pos - minPos)
    {
      ghost var was := limits;
      var i := 0;
      while i < |limits|
        invariant i <= |limits| == |was|
        invariant forall k :: 0 <= k < |limits| ==> limits[k] == if k < i then was[k].(pos := was[k].pos - minPos) else was[k]
      {
        limits := limits[i := limits[i].(pos := limits[i].pos - minPos)];
        i := i + 1;
      }
    }

    /** Adds an event, which the caller may do no earlier than the wake-up time. */
    method AddEvent(now: real)
      requires Valid() && now >= wakeupAt && (all != [] ==> now >= all[|all| - 1])
      modifies this
      ensures Valid() && all == old(all) + [now] && SameLimits(limits, old(limits)) && wakeupAt >= old(wakeupAt)
      ensures forall i :: 0 <= i < |limits| ==> Respects(all, limits[i])
    {
      AddedOK(all, limits, Gap(), withoutUpdate, wakeupAt, now);
      KeptMore(events, all, now);
      events := events + [now];
      all := all + [now];
      if withoutUpdate > 0 {
        withoutUpdate := withoutUpdate - 1;
      } else {
        Update(now);
      }
      forall i | 0 <= i < |limits| ensures Respects(all, limits[i]) {
        assert LimitOK(all, limits[i], Gap(), withoutUpdate, wakeupAt);
      }
    }
  }

  ghost predicate SameLimits(a: seq<Limit>, b: seq<Limit>) {
    |a| == |b| && forall i :: 0 <= i < |a| ==> a[i] == b[i].(pos := a[i].pos)
  }

  ghost predicate ToUpdate(all: seq<real>, l: Limit, gap: nat) {
    l.count > 0 && Respects(all, l) && Passed(all, l, gap + l.pos)
  }

  /** The first i limits are up to date. */
  ghost predicate Updated(all: seq<real>, limits: seq<Limit>, gap: nat, w: nat, wakeup: real, i: nat) {
    var ok := all != [] && i <= |limits|
      && (forall k :: 0 <= k < i ==> LimitOK(all, limits[k], gap, w, wakeup))
      && (forall k :: i <= k < |limits| ==> ToUpdate(all, limits[k], gap))
      && (wakeup <= all[|all| - 1] || exists k :: 0 <= k < i && ForcedBy(all, limits[k], gap, wakeup));
    ok
  }

  lemma UpdatedOneMore(all: seq<real>, limits: seq<Limit>, gap: nat, w: nat, wakeup: real, i: nat, l: Limit, w': nat, wakeup': real)
    requires Updated(all, limits, gap, w, wakeup, i) && i < |limits| && l == limits[i].(pos := l.pos)
    requires Passed(all, l, gap + l.pos) && l.count + gap + l.pos >= |all|
    requires if l.count + gap + l.pos == |all| then w' == 0 && gap + l.pos < |all| && wakeup' == Max(wakeup, all[gap + l.pos] + l.duration)
             else w' <= w && l.count + gap + l.pos > |all| + w' && wakeup' == wakeup && (w == 0 ==> w' == 0)
    ensures Updated(all, limits[i := l], gap, w', wakeup', i + 1)
  {
    var limits' := limits[i := l];
    forall k | 0 <= k < i + 1 ensures LimitOK(all, limits'[k], gap, w', wakeup') {
      if k < i {
        assert LimitOK(all, limits[k], gap, w, wakeup);
      } else {
        assert ToUpdate(all, limits[i], gap);
        RespectsSame(all, limits[i], l);
      }
    }
    forall k | i + 1 <= k < |limits| ensures ToUpdate(all, limits'[k], gap) {
      assert ToUpdate(all, limits[k], gap);
    }
    if wakeup' == wakeup {
      if wakeup > all[|all| - 1] {
        var k :| 0 <= k < i && ForcedBy(all, limits[k], gap, wakeup);
        assert ForcedBy(all, limits'[k], gap, wakeup');
      }
    } else {
      assert ForcedBy(all, limits'[i], gap, wakeup');
    }
  }

  lemma RespectsSame(all: seq<real>, l: Limit, l': Limit)
    requires Respects(all, l) && l'.count == l.count && l'.duration == l.duration
    ensures Respects(all, l')
  {
    forall i | 0 <= i < |all| - l'.count ensures SpanAt(all, l', i) {
      assert SpanAt(all, l, i);
    }
  }

  lemma UpdatedTrimmed(all: seq<real>, limits: seq<Limit>, limits': seq<Limit>, gap: nat, m: nat, w: nat, wakeup: real)
    requires Updated(all, limits, gap, w, wakeup, |limits|) && |limits'| == |limits|
    requires forall k :: 0 <= k < |limits| ==> m <= limits[k].pos && limits'[k] == limits[k].(pos := limits[k].pos - m)
    ensures Updated(all, limits', gap + m, w, wakeup, |limits'|)
  {
    forall k | 0 <= k < |limits'| ensures LimitOK(all, limits'[k], gap + m, w, wakeup) {
      assert LimitOK(all, limits[k], gap, w, wakeup);
      RespectsSame(all, limits[k], limits'[k]);
    }
    if wakeup > all[|all| - 1] {
      var k :| 0 <= k < |limits| && ForcedBy(all, limits[k], gap, wakeup);
      assert ForcedBy(all, limits'[k], gap + m, wakeup);
    }
  }

  lemma KeptTail(events: seq<real>, all: seq<real>, m: nat)
    requires Kept(events, all) && m <= |events|
    ensures Kept(events[m..], all)
  {
    forall k | 0 <= k < |events| - m ensures KeptAt(events[m..], all, k) {
      assert KeptAt(events, all, k + m);
    }
  }

  lemma KeptMore(events: seq<real>, all: seq<real>, now: real)
    requires Kept(events, all)
    ensures Kept(events + [now], all + [now])
  {
    forall k | 0 <= k < |events| + 1 ensures KeptAt(events + [now], all + [now], k) {
      if k < |events| { assert KeptAt(events, all, k); }
    }
  }

  /** An event in time keeps every limit, and leaves what an update needs. */
  lemma AddedOK(all: seq<real>, limits: seq<Limit>, gap: nat, w: nat, wakeup: real, now: real)
    requires LimitsOK(all, limits, gap, w, wakeup) && NonDecreasing(all) && now >= wakeup && (all != [] ==> now >= all[|all| - 1])
    ensures NonDecreasing(all + [now]) && forall i :: 0 <= i < |limits| ==> ToUpdate(all + [now], limits[i], gap)
    ensures w > 0 ==> LimitsOK(all + [now], limits, gap, w - 1, wakeup)
  {
    forall i | 0 <= i < |limits| ensures ToUpdate(all + [now], limits[i], gap) && (w > 0 ==> LimitOK(all + [now], limits[i], gap, w - 1, wakeup)) {
      var l := limits[i];
      assert LimitOK(all, l, gap, w, wakeup);
      WaitsAllows(all, l, gap + l.pos, w, wakeup, now);
      RespectsOneMore(all, l, now);
      PassedOneMore(all, l, gap + l.pos, now);
    }
  }

  /** The wake-up time is exact: it is the earliest time from now on at which every limit allows an event. */
  lemma WakeupIsExact(f: FloodControlStrict, t: real)
    requires f.Valid() && t >= 0.0 && (f.all != [] ==> t >= f.all[|f.all| - 1])
    ensures t >= f.wakeupAt <==> forall i :: 0 <= i < |f.limits| ==> Allows(f.all, f.limits[i], t)
  {
    if t >= f.wakeupAt {
      forall i | 0 <= i < |f.limits| ensures Allows(f.all, f.limits[i], t) {
        var l := f.limits[i];
        assert LimitOK(f.all, l, f.Gap(), f.withoutUpdate, f.wakeupAt);
        WaitsAllows(f.all, l, f.Gap() + l.pos, f.withoutUpdate, f.wakeupAt, t);
      }
    } else {
      assert Forced(f.all, f.limits, f.Gap(), f.wakeupAt);
      var i :| 0 <= i < |f.limits| && ForcedBy(f.all, f.limits[i], f.Gap(), f.wakeupAt);
      assert LimitOK(f.all, f.limits[i], f.Gap(), f.withoutUpdate, f.wakeupAt);
      assert !Allows(f.all, f.limits[i], t);
    }
  }
}
