/** Matching pings sent with pongs received, and reporting mismatches. */
module PingPong {
  import opened Clock

  /** What becomes visible: a pending-pong event with its count, a warning about pending pongs, a clear. */
  datatype Item = Fired(count: nat) | Warned | Cleared

  predicate Resets(x: Item) { x == Fired(0) || x == Cleared }

  /** The log ends in a warning that nothing has reset since. */
  predicate WarningStands(log: seq<Item>) {
    log != [] && !Resets(log[|log| - 1]) && (log[|log| - 1].Warned? || WarningStands(log[..|log| - 1]))
  }

  /** Between two warnings there is always a fired 0 or a clear. */
  ghost predicate WarningsApart(log: seq<Item>) {
    forall i, j :: 0 <= i < j < |log| && log[i].Warned? && log[j].Warned? ==> exists k :: i < k < j && Resets(log[k])
  }

  lemma {:induction false} StandsOrReset(log: seq<Item>, i: nat)
    requires i < |log| && log[i].Warned?
    ensures WarningStands(log) || exists k :: i < k < |log| && Resets(log[k])
  {
    if i < |log| - 1 && !Resets(log[|log| - 1]) {
      StandsOrReset(log[..|log| - 1], i);
      if !WarningStands(log[..|log| - 1]) {
        var k :| i < k < |log[..|log| - 1]| && Resets(log[..|log| - 1][k]);
        assert Resets(log[k]);
      }
    } else if Resets(log[|log| - 1]) {
      assert i < |log| - 1;
    }
  }

  /** Appending an item keeps warnings apart if a warning is only given when none stands. */
  lemma AppendApart(log: seq<Item>, x: Item)
    requires WarningsApart(log) && (x.Warned? ==> !WarningStands(log))
    ensures WarningsApart(log + [x])
    ensures WarningStands(log + [x]) <==> !Resets(x) && (x.Warned? || WarningStands(log))
  {
    var longer := log + [x];
    assert longer[..|log|] == log;
    forall i, j | 0 <= i < j < |longer| && longer[i].Warned? && longer[j].Warned?
      ensures exists k :: i < k < j && Resets(longer[k])
    {
      if j == |log| {
        StandsOrReset(log, i);
        var k :| i < k < |log| && Resets(log[k]);
        assert Resets(longer[k]);
      } else {
        var k :| i < k < j && Resets(log[k]);
        assert Resets(longer[k]);
      }
    }
  }

  /** A pending event carries 0 or a count above the allowed delta, warnings are apart, and the flag tells whether one
      stands. */
  ghost predicate Orderly(log: seq<Item>, allowedDelta: nat, flag: bool) {
    && (forall i :: 0 <= i < |log| && log[i].Fired? ==> log[i].count == 0 || log[i].count > allowedDelta)
    && WarningsApart(log)
    && (flag <==> WarningStands(log))
  }

  lemma AppendOrderly(log: seq<Item>, allowedDelta: nat, flag: bool, x: Item)
    requires Orderly(log, allowedDelta, flag)
    requires x.Fired? ==> x.count == 0 || x.count > allowedDelta
    requires x.Warned? ==> !flag
    ensures Orderly(log + [x], allowedDelta, !Resets(x) && (x.Warned? || flag))
  {
    hide WarningsApart, WarningStands;
    AppendApart(log, x);
  }

  lemma FlagTells(log: seq<Item>, allowedDelta: nat, flag: bool)
    requires Orderly(log, allowedDelta, flag)
    ensures flag <==> WarningStands(log)
  {
  }

  lemma SomeMember(s: set<nat>)
    requires s != {}
    ensures exists x: nat :: x in s
  {
  }

  /** `all` is made up of four sets that share nothing. */
  ghost predicate Partition(all: set<nat>, a: set<nat>, b: set<nat>, c: set<nat>, d: set<nat>) {
    all == a + b + c + d && a !! b !! c !! d
  }

  lemma PartitionGrows(all: set<nat>, a: set<nat>, b: set<nat>, c: set<nat>, d: set<nat>, x: nat)
    requires Partition(all, a, b, c, d) && x !in all
    ensures Partition(all + {x}, a, b, c, d + {x})
  {
  }

  lemma PartitionMoves(all: set<nat>, a: set<nat>, b: set<nat>, c: set<nat>, d: set<nat>, x: nat)
    requires Partition(all, a, b, c, d) && x in d
    ensures Partition(all, a + {x}, b, c, d - {x}) && Partition(all, a, b + {x}, c, d - {x})
  {
  }

  class PingPongCache {
    const allowedDelta: nat
    const ttl: nat

    var pending: set<nat>
    var unknown: set<nat>
    var pendingLogged: bool
    var unknownLogged: bool

    ghost var sent: set<nat>
    ghost var answered: set<nat>
    ghost var expired: set<nat>
    ghost var cleared: set<nat>
    ghost var log: seq<Item>

    /** Every ping sent is answered, expired, cleared or pending, and only one of these. */
    ghost predicate Conserved()
      reads `sent, `answered, `expired, `cleared, `pending
    {
      Partition(sent, answered, expired, cleared, pending)
    }

    ghost predicate Valid()
      reads this
    {
      Conserved() && Orderly(log, allowedDelta, pendingLogged)
    }

    constructor (allowedDelta: nat, ttl: nat)
      requires ttl > 0
      ensures Valid() && sent == {} && log == []
    {
      this.allowedDelta, this.ttl := allowedDelta, ttl;
      pending, unknown, pendingLogged, unknownLogged := {}, {}, false, false;
      sent, answered, expired, cleared, log := {}, {}, {}, {}, [];
    }

    predicate Expired(ts: nat, now: int) { AgeSeconds(now, ts) > ttl }

    /** Too old by the real age: more than `ttl` whole seconds. */
    predicate TooOld(ts: nat, now: int) { (now - ts) / SECOND > ttl }

    /** A clean-up judges a ping rightly unless it is a day old or older and at most `ttl` seconds beyond whole days. */
    lemma ExpiredIff(ts: nat, now: int)
      requires ts <= now
      ensures (Expired(ts, now) <==> TooOld(ts, now)) <==>
        !(now - ts >= DAY && AgeSeconds(now, ts) <= ttl && TooOld(ts, now))
      ensures Expired(ts, now) ==> TooOld(ts, now)
      ensures now - ts < DAY ==> (Expired(ts, now) <==> TooOld(ts, now))
    {
      var whole := (now - ts) / SECOND;
      assert whole % 86_400 <= whole;
      assert whole < 86_400 ==> whole % 86_400 == whole;
    }

    /** A ping of a day and ten seconds stays pending. */
    lemma PendingAfterADay(ts: nat)
      requires 10 <= ttl < 86_400
      ensures !Expired(ts, ts + DAY + 10 * SECOND) && TooOld(ts, ts + DAY + 10 * SECOND)
    {
      assert AgeSeconds(ts + DAY + 10 * SECOND, ts) == 10;
    }

    /** The time stamps a clean-up at `now` leaves. */
    function Alive(stamps: set<nat>, now: int): set<nat> { set ts | ts in stamps && !Expired(ts, now) }

    method CleanupPending(now: int)
      requires Valid()
      modifies `pending, `expired
      ensures Valid()
      ensures pending == Alive(old(pending), now)
      ensures expired == old(expired) + (old(pending) - pending)
    {
      var todo := pending;
      while todo != {}
        invariant Conserved() && todo <= pending <= old(pending)
        invariant forall ts <- old(pending) :: ts in todo || (ts in pending <==> !Expired(ts, now))
        invariant expired == old(expired) + (old(pending) - pending)
        decreases todo
      {
        SomeMember(todo);
        var ts: nat :| ts in todo;
        todo := todo - {ts};
        if Expired(ts, now) {
          PartitionMoves(sent, answered, expired, cleared, pending, ts);
          pending := pending - {ts};
          expired := expired + {ts};
        }
      }
    }

    method CleanupUnknown(now: int)
      modifies `unknown
      ensures unknown == Alive(old(unknown), now)
    {
      var todo := unknown;
      while todo != {}
        invariant todo <= unknown <= old(unknown)
        invariant forall ts <- old(unknown) :: ts in todo || (ts in unknown <==> !Expired(ts, now))
        decreases todo
      {
        SomeMember(todo);
        var ts: nat :| ts in todo;
        todo := todo - {ts};
        if Expired(ts, now) {
          unknown := unknown - {ts};
        }
      }
    }

    /** `clear` */
    method Clear()
      requires Valid()
      modifies this
      ensures Valid() && pending == {} && unknown == {} && !pendingLogged && !unknownLogged
      ensures log == old(log) + [Cleared]
      ensures sent == old(sent) && answered == old(answered) && expired == old(expired)
    {
      hide Orderly;
      AppendOrderly(log, allowedDelta, pendingLogged, Cleared);
      cleared := cleared + pending;
      pending, unknown, pendingLogged, unknownLogged := {}, {}, false, false;
      log := log + [Cleared];
    }

    /** `handle_send_ping`; pings have distinct time stamps. `clock` are the readings of the clock on the way. */
    method HandleSendPing(ts: nat, clock: seq<int>)
      requires Valid() && ts !in sent && |clock| == 4
      modifies this
      ensures Valid()
      ensures sent == old(sent) + {ts} && answered == old(answered) && cleared == old(cleared)
      ensures var all := old(pending) + {ts}; var first := Alive(all, clock[0]); var second := Alive(first, clock[2]);
        && pending == (if 2 * |first| < allowedDelta then first else second)
        && (2 * |first| < allowedDelta ==> log == old(log) + [Fired(0)])
        && (2 * |first| >= allowedDelta && |second| > allowedDelta ==>
              log == old(log) + [Fired(|all|)] + if WarningStands(old(log)) then [] else [Warned])
        && (2 * |first| >= allowedDelta && |second| <= allowedDelta ==> log == old(log))
      ensures |pending| > allowedDelta ==> WarningStands(log)
      ensures unknownLogged == old(unknownLogged)
      ensures unknown == if 2 * |Alive(old(pending) + {ts}, clock[0])| < allowedDelta then old(unknown)
                         else Alive(Alive(old(unknown), clock[1]), clock[3])
    {
      hide Orderly, PingPongCache.Alive, Partition, WarningStands;
      PartitionGrows(sent, answered, expired, cleared, pending, ts);
      sent := sent + {ts};
      pending := pending + {ts};
      CheckAndFire(true, |pending|, clock);
    }

    /** `handle_received_pong` */
    method HandleReceivedPong(ts: nat, clock: seq<int>)
      requires Valid() && |clock| == 4
      modifies this
      ensures Valid()
      ensures sent == old(sent) && cleared == old(cleared)
      ensures answered == old(answered) + if ts in old(pending) then {ts} else {}
      ensures ts in old(pending) ==>
        var all := old(pending) - {ts}; var first := Alive(all, clock[0]); var second := Alive(first, clock[2]);
        && pending == (if 2 * |first| < allowedDelta then first else second)
        && (2 * |first| < allowedDelta ==> log == old(log) + [Fired(0)])
        && (2 * |first| >= allowedDelta && |second| > allowedDelta ==>
              log == old(log) + [Fired(|all|)] + if WarningStands(old(log)) then [] else [Warned])
        && (2 * |first| >= allowedDelta && |second| <= allowedDelta ==> log == old(log))
      ensures ts in old(pending) && |pending| > allowedDelta ==> WarningStands(log)
      ensures ts in old(pending) ==>
        && unknownLogged == old(unknownLogged)
        && unknown == if 2 * |Alive(old(pending) - {ts}, clock[0])| < allowedDelta then old(unknown)
                      else Alive(Alive(old(unknown), clock[1]), clock[3])
      ensures ts !in old(pending) ==>
        var first := Alive(old(pending), clock[0]); var u := Alive(old(unknown) + {ts}, clock[1]);
        && log == old(log)
        && pending == (if 2 * |u| < allowedDelta then first else Alive(first, clock[2]))
        && unknown == (if 2 * |u| < allowedDelta then u else Alive(u, clock[3]))
        && (unknownLogged <==> 2 * |u| >= allowedDelta && (|unknown| > allowedDelta || old(unknownLogged)))
    {
      hide Orderly, PingPongCache.Alive, PingPongCache.Conserved, WarningStands;
      if ts in pending {
        AnswerPing(ts, clock);
        return;
      }
      unknown := unknown + {ts};
      CheckAndFire(false, |unknown|, clock);
    }

    /** The part of `handle_received_pong` for a pending ping. */
    method AnswerPing(ts: nat, clock: seq<int>)
      requires Valid() && |clock| == 4 && ts in pending
      modifies this
      ensures Valid()
      ensures sent == old(sent) && cleared == old(cleared) && answered == old(answered) + {ts}
      ensures var all := old(pending) - {ts}; var first := Alive(all, clock[0]); var second := Alive(first, clock[2]);
        && pending == (if 2 * |first| < allowedDelta then first else second)
        && (2 * |first| < allowedDelta ==> log == old(log) + [Fired(0)])
        && (2 * |first| >= allowedDelta && |second| > allowedDelta ==>
              log == old(log) + [Fired(|all|)] + if WarningStands(old(log)) then [] else [Warned])
        && (2 * |first| >= allowedDelta && |second| <= allowedDelta ==> log == old(log))
      ensures |pending| > allowedDelta ==> WarningStands(log)
      ensures unknownLogged == old(unknownLogged)
      ensures unknown == if 2 * |Alive(old(pending) - {ts}, clock[0])| < allowedDelta then old(unknown)
                         else Alive(Alive(old(unknown), clock[1]), clock[3])
    {
      hide Orderly, PingPongCache.Alive, Partition, WarningStands;
      PartitionMoves(sent, answered, expired, cleared, pending, ts);
      pending := pending - {ts};
      answered := answered + {ts};
      CheckAndFire(true, |pending|, clock);
    }

    lemma AliveWithin(stamps: set<nat>, now: int)
      ensures Alive(stamps, now) <= stamps && |Alive(stamps, now)| <= |stamps|
    {
      SubsetSize(Alive(stamps, now), stamps);
    }

    /** `_check_and_fire_pong_event`, for pending or for unknown pongs. The conditions are evaluated one after the
        other, and each first cleans up the pongs it counts. */
    method CheckAndFire(aboutPending: bool, count: nat, clock: seq<int>)
      requires Valid() && |clock| == 4
      requires aboutPending ==> count == |pending|
      modifies `pending, `unknown, `expired, `pendingLogged, `unknownLogged, `log
      ensures Valid() && pending <= old(pending) && unknown <= old(unknown)
      ensures var first := Alive(old(pending), clock[0]);
        var low := if aboutPending then 2 * |first| < allowedDelta
          else 2 * |Alive(old(unknown), clock[1])| < allowedDelta;
        pending == if low then first else Alive(first, clock[2])
      ensures var low, u := aboutPending && 2 * |Alive(old(pending), clock[0])| < allowedDelta,
        Alive(old(unknown), clock[1]);
        if low then unknown == old(unknown) && unknownLogged == old(unknownLogged)
        else if aboutPending then unknown == Alive(u, clock[3]) && unknownLogged == old(unknownLogged)
        else if 2 * |u| < allowedDelta then unknown == u && !unknownLogged
        else unknown == Alive(u, clock[3]) && (unknownLogged <==> |unknown| > allowedDelta || old(unknownLogged))
      ensures !aboutPending ==> log == old(log)
      ensures aboutPending ==>
        var first := Alive(old(pending), clock[0]); var second := Alive(first, clock[2]);
        && (2 * |first| < allowedDelta ==> log == old(log) + [Fired(0)])
        && (2 * |first| >= allowedDelta && |second| > allowedDelta ==>
              log == old(log) + [Fired(count)] + if WarningStands(old(log)) then [] else [Warned])
        && (2 * |first| >= allowedDelta && |second| <= allowedDelta ==> log == old(log))
      ensures aboutPending && |pending| > allowedDelta ==> WarningStands(log)
    {
      hide Orderly, PingPongCache.Alive, PingPongCache.Conserved, WarningStands;
      FlagTells(log, allowedDelta, pendingLogged);
      AliveWithin(pending, clock[0]);
      AliveWithin(Alive(pending, clock[0]), clock[2]);
      AliveWithin(unknown, clock[1]);
      AliveWithin(Alive(unknown, clock[1]), clock[3]);
      CleanupPending(clock[0]);
      if 2 * |pending| < allowedDelta && aboutPending {
        AppendOrderly(log, allowedDelta, pendingLogged, Fired(0));
        log := log + [Fired(0)];
        pendingLogged := false;
        return;
      }
      CleanupUnknown(clock[1]);
      if 2 * |unknown| < allowedDelta && !aboutPending {
        unknownLogged := false;
        return;
      }
      CleanupPending(clock[2]);
      if |pending| > allowedDelta && aboutPending {
        AppendOrderly(log, allowedDelta, pendingLogged, Fired(count));
        log := log + [Fired(count)];
        if !pendingLogged {
          AppendOrderly(log, allowedDelta, pendingLogged, Warned);
          log := log + [Warned];
        }
        pendingLogged := true;
        FlagTells(log, allowedDelta, pendingLogged);
      }
      CleanupUnknown(clock[3]);
      if |unknown| > allowedDelta && !aboutPending {
        unknownLogged := true;
      }
    }
  }

  lemma SubsetSize(a: set<nat>, b: set<nat>)
    requires a <= b
    ensures |a| <= |b|
  {
    assert b == a + (b - a);
  }
}
