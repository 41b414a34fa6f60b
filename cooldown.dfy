/**
 * The debounce stage, `Filter.debounce`, and its suppression set
 * `barcodeToSkip`, as values.  Each accepted code schedules a one-shot
 * timer that deletes it again `CooldownMs` later.  All timers have the same
 * delay, so they fire in the order they were scheduled: the pending timers
 * form a queue, and the clock is an explicit `now` in milliseconds.
 */
module Cooldown {
  import opened Wrappers
  import opened Detections

  /** The delay passed to `setTimeout` when a code is accepted. */
  const CooldownMs: nat := 2000

  /** A scheduled deletion of `code` from the suppression set, due at time `due`. */
  datatype Timer = Timer(code: string, due: int)

  /** The suppression set, the timers scheduled and not yet fired, and the clock. */
  datatype Suppression = Suppression(barcodeToSkip: set<string>, timers: seq<Timer>, now: int)
  {
    /** The set holds exactly the codes of the pending timers, one timer per code, queued by due time. */
    ghost predicate Scheduled() {
      && barcodeToSkip == (set i | 0 <= i < |timers| :: timers[i].code)
      && (forall i, j :: 0 <= i < j < |timers| ==> timers[i].code != timers[j].code)
      && (forall i, j :: 0 <= i < j < |timers| ==> timers[i].due <= timers[j].due)
      && (forall i :: 0 <= i < |timers| ==> timers[i].due <= now + CooldownMs)
    }

    /** Besides, every timer that was due has fired. */
    ghost predicate Valid() {
      Scheduled() && forall i :: 0 <= i < |timers| ==> now < timers[i].due
    }
  }

  /** The state when the page loads: `new Set()` and no timer. */
  function Initial(now: int): (s: Suppression)
    ensures s.Valid() && s.barcodeToSkip == {} && s.now == now
  {
    Suppression({}, [], now)
  }

  /**
   * Accepts a code that is not cooling down, inserting it and scheduling its
   * deletion; rejects a code that is, leaving everything as it is (a rejection
   * does not restart the cooldown).
   */
  function Debounce(data: Detection, s: Suppression): (r: (Option<Detection>, Suppression))
    ensures data.code !in s.barcodeToSkip ==>
      && r.0 == Some(data)
      && r.1.barcodeToSkip == s.barcodeToSkip + {data.code}
      && r.1.timers == s.timers + [Timer(data.code, s.now + CooldownMs)]
      && r.1.now == s.now
    ensures data.code in s.barcodeToSkip ==> r == (None, s)
    ensures s.Valid() ==> r.1.Valid()
  {
    if data.code !in s.barcodeToSkip then
      var timers := s.timers + [Timer(data.code, s.now + CooldownMs)];
      assert forall i :: 0 <= i < |s.timers| ==> timers[i] == s.timers[i];
      assert (set i | 0 <= i < |timers| :: timers[i].code)
          == (set i | 0 <= i < |s.timers| :: s.timers[i].code) + {data.code} by {
        assert timers[|s.timers|].code == data.code;
      }
      (Some(data), Suppression(s.barcodeToSkip + {data.code}, timers, s.now))
    else
      (None, s)
  }

  /** The callback of the oldest pending timer: `barcodeToSkip.delete(code)`. */
  function Expire(s: Suppression): (r: Suppression)
    requires s.timers != []
    ensures r.barcodeToSkip == s.barcodeToSkip - {s.timers[0].code}
    ensures r.timers == s.timers[1..] && r.now == s.now
  {
    Suppression(s.barcodeToSkip - {s.timers[0].code}, s.timers[1..], s.now)
  }

  /** Expiry deletes only its own code: every other code keeps its one pending timer. */
  lemma ExpireKeepsSchedule(s: Suppression)
    requires s.Scheduled() && s.timers != []
    ensures Expire(s).Scheduled()
    ensures s.timers[0].code !in Expire(s).barcodeToSkip
    ensures forall c :: c in s.barcodeToSkip && c != s.timers[0].code ==> c in Expire(s).barcodeToSkip
  {
  }

  /**
   * Runs, oldest first, the callbacks of every timer that is due at `s.now`:
   * the clock stays, codes only leave the set, and the oldest timer left is
   * not yet due.
   */
  function FireDue(s: Suppression): (r: Suppression)
    ensures r.now == s.now && r.barcodeToSkip <= s.barcodeToSkip
    ensures |r.timers| <= |s.timers|
    ensures r.timers == [] || r.timers[0].due > s.now
    decreases |s.timers|
  {
    if s.timers != [] && s.timers[0].due <= s.now then FireDue(Expire(s)) else s
  }

  /**
   * Lets `ms` milliseconds pass: the clock moves by `ms`, codes only leave
   * the set, and the oldest timer left falls due after the new time.
   */
  function Advance(s: Suppression, ms: nat): (r: Suppression)
    ensures r.now == s.now + ms && r.barcodeToSkip <= s.barcodeToSkip
    ensures |r.timers| <= |s.timers|
    ensures r.timers == [] || r.timers[0].due > s.now + ms
  {
    FireDue(s.(now := s.now + ms))
  }

  /** Some pending timer for `c` falls due after time `t`. */
  ghost predicate DueAfter(timers: seq<Timer>, c: string, t: int) {
    exists i :: 0 <= i < |timers| && timers[i].code == c && timers[i].due > t
  }

  /** A timer already due does not count as falling due later. */
  lemma DueAfterTail(timers: seq<Timer>, c: string, t: int)
    requires timers != [] && timers[0].due <= t
    ensures DueAfter(timers, c, t) <==> DueAfter(timers[1..], c, t)
  {
  }

  /** Firing the due timers leaves a valid state at the same time. */
  lemma {:induction false} FireDueValid(s: Suppression)
    requires s.Scheduled()
    ensures FireDue(s).Valid() && FireDue(s).now == s.now
    decreases |s.timers|
  {
    if s.timers != [] && s.timers[0].due <= s.now {
      ExpireKeepsSchedule(s);
      FireDueValid(Expire(s));
    } else {
      forall i | 0 <= i < |s.timers| ensures s.now < s.timers[i].due {
        assert s.timers[0].due <= s.timers[i].due;
      }
    }
  }

  /** Firing the due timers keeps exactly the codes whose timer is still in the future. */
  lemma {:induction false} FireDueKeepsLate(s: Suppression, c: string)
    requires s.Scheduled()
    ensures c in FireDue(s).barcodeToSkip <==> DueAfter(s.timers, c, s.now)
    decreases |s.timers|
  {
    if s.timers != [] && s.timers[0].due <= s.now {
      ExpireKeepsSchedule(s);
      FireDueKeepsLate(Expire(s), c);
      DueAfterTail(s.timers, c, s.now);
    } else if c in s.barcodeToSkip {
      var i :| 0 <= i < |s.timers| && s.timers[i].code == c;
      assert s.timers[0].due <= s.timers[i].due;
    }
  }

  /** After `ms` milliseconds a code is still suppressed exactly when its timer falls due later than that. */
  lemma AdvanceKeepsLate(s: Suppression, ms: nat, c: string)
    requires s.Valid()
    ensures Advance(s, ms).Valid() && Advance(s, ms).now == s.now + ms
    ensures c in Advance(s, ms).barcodeToSkip <==> DueAfter(s.timers, c, s.now + ms)
  {
    FireDueValid(s.(now := s.now + ms));
    FireDueKeepsLate(s.(now := s.now + ms), c);
  }

  /** A code accepted once is rejected again for any detection less than `CooldownMs` later. */
  lemma SuppressedWithinCooldown(s: Suppression, data: Detection, ms: nat)
    requires s.Valid() && data.code !in s.barcodeToSkip
    requires ms < CooldownMs
    ensures Debounce(data, Advance(Debounce(data, s).1, ms)).0 == None
  {
    var s1 := Debounce(data, s).1;
    AdvanceKeepsLate(s1, ms, data.code);
    assert s1.timers[|s1.timers| - 1].code == data.code;
  }

  /** ... and accepted again once `CooldownMs` have passed. */
  lemma ReleasedAfterCooldown(s: Suppression, data: Detection, ms: nat)
    requires s.Valid() && data.code !in s.barcodeToSkip
    requires ms >= CooldownMs
    ensures Debounce(data, Advance(Debounce(data, s).1, ms)).0 == Some(data)
  {
    var s1 := Debounce(data, s).1;
    AdvanceKeepsLate(s1, ms, data.code);
  }

  /** Every timer is due within `CooldownMs`, so waiting that long empties the suppression set. */
  lemma CooldownClearsAll(s: Suppression, ms: nat)
    requires s.Valid() && ms >= CooldownMs
    ensures Advance(s, ms).Valid() && Advance(s, ms).barcodeToSkip == {}
  {
    forall c ensures c !in Advance(s, ms).barcodeToSkip {
      AdvanceKeepsLate(s, ms, c);
    }
    AdvanceKeepsLate(s, ms, "");
  }

  /** Firing the due timers once more at a later time is firing them all at that time. */
  lemma {:induction false} FireDueLater(s: Suppression, t: int)
    requires s.Scheduled() && t >= s.now
    ensures FireDue(FireDue(s).(now := t)) == FireDue(s.(now := t))
    decreases |s.timers|
  {
    if s.timers != [] && s.timers[0].due <= s.now {
      ExpireKeepsSchedule(s);
      FireDueLater(Expire(s), t);
      assert Expire(s.(now := t)) == Expire(s).(now := t);
    }
  }

  /** Two steps of the clock fire the same timers as one step of their sum. */
  lemma AdvanceAdditive(s: Suppression, a: nat, b: nat)
    requires s.Valid()
    ensures Advance(Advance(s, a), b) == Advance(s, a + b)
  {
    FireDueLater(s.(now := s.now + a), s.now + a + b);
  }

  /** The cooldown holds however the clock gets there: two steps summing to less than `CooldownMs` still reject. */
  lemma SuppressedAcrossSteps(s: Suppression, data: Detection, a: nat, b: nat)
    requires s.Valid() && data.code !in s.barcodeToSkip
    requires a + b < CooldownMs
    ensures Debounce(data, Advance(Advance(Debounce(data, s).1, a), b)).0 == None
  {
    AdvanceAdditive(Debounce(data, s).1, a, b);
    SuppressedWithinCooldown(s, data, a + b);
  }
}
