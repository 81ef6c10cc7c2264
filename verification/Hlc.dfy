/** Hybrid logical clocks: the strings the registry orders its writes by, and
    the device-local source that never repeats or goes back. */
module Hlc {

  /** Lexicographic string order. */
  predicate StrLess(a: string, b: string)
    decreases |a|
  {
    b != [] && (a == [] || a[0] < b[0] || (a[0] == b[0] && StrLess(a[1..], b[1..])))
  }

  function Pow10(w: nat): nat {
    if w == 0 then 1 else 10 * Pow10(w - 1)
  }

  function Digit(d: nat): char
    requires d < 10
  {
    "0123456789"[d]
  }

  /** Decimal digits of `n`, zero-padded to at least `w` of them. */
  function Digits(n: nat, w: nat): string
    decreases n, w
  {
    if n == 0 && w == 0 then ""
    else Digits(n / 10, if w == 0 then 0 else w - 1) + [Digit(n % 10)]
  }

  /** `{ms:013}-{counter:06}-{device}` */
  function EncodeHlc(ms: nat, counter: nat, device: string): string {
    Digits(ms, 13) + ("-" + (Digits(counter, 6) + ("-" + device)))
  }

  /** The order clocks are meant to have: time, then counter, then device. */
  predicate ClockLess(ms1: nat, c1: nat, d1: string, ms2: nat, c2: nat, d2: string) {
    ms1 < ms2 || (ms1 == ms2 && (c1 < c2 || (c1 == c2 && StrLess(d1, d2))))
  }

  lemma LastDigit(n: nat, w: nat, x: string)
    requires w > 0
    ensures Digits(n, w) + x == Digits(n / 10, w - 1) + ([Digit(n % 10)] + x)
  {
  }

  lemma TenthBelow(n: nat, b: nat)
    requires n < 10 * b
    ensures n / 10 < b
  {
  }

  lemma HeadOrder(a: char, b: char, x: string, y: string)
    ensures StrLess([a] + x, [b] + y) <==> a < b || (a == b && StrLess(x, y))
  {
    assert ([a] + x)[1..] == x && ([b] + y)[1..] == y;
  }

  lemma DivModOrder(n: nat, m: nat)
    ensures n < m <==> n / 10 < m / 10 || (n / 10 == m / 10 && n % 10 < m % 10)
    ensures n == m <==> n / 10 == m / 10 && n % 10 == m % 10
  {
  }

  lemma DigitOrder(a: nat, b: nat)
    requires a < 10 && b < 10
    ensures (Digit(a) < Digit(b) <==> a < b) && (Digit(a) == Digit(b) <==> a == b)
  {
  }

  lemma LastDigitOrder(n: nat, m: nat, x: string, y: string)
    ensures StrLess([Digit(n % 10)] + x, [Digit(m % 10)] + y) <==>
      n % 10 < m % 10 || (n % 10 == m % 10 && StrLess(x, y))
  {
    HeadOrder(Digit(n % 10), Digit(m % 10), x, y);
    DigitOrder(n % 10, m % 10);
  }

  /** Fixed-width numbers in front of two strings compare first. */
  lemma {:induction false} DigitsOrder(n: nat, m: nat, w: nat, x: string, y: string)
    requires n < Pow10(w) && m < Pow10(w)
    ensures StrLess(Digits(n, w) + x, Digits(m, w) + y) <==> n < m || (n == m && StrLess(x, y))
    decreases w
  {
    if w == 0 {
      assert Digits(n, 0) + x == x && Digits(m, 0) + y == y;
    } else {
      LastDigit(n, w, x);
      LastDigit(m, w, y);
      DivModOrder(n, m);
      LastDigitOrder(n, m, x, y);
      TenthBelow(n, Pow10(w - 1));
      TenthBelow(m, Pow10(w - 1));
      DigitsOrder(n / 10, m / 10, w - 1, [Digit(n % 10)] + x, [Digit(m % 10)] + y);
    }
  }

  lemma SeparatorOrder(x: string, y: string)
    ensures StrLess("-" + x, "-" + y) <==> StrLess(x, y)
  {
    assert ("-" + x)[1..] == x && ("-" + y)[1..] == y;
  }

  /** Up to the year 2286 string order is clock order. */
  lemma StringOrderIsClockOrder(ms1: nat, c1: nat, d1: string, ms2: nat, c2: nat, d2: string)
    requires ms1 < 10_000_000_000_000 && ms2 < 10_000_000_000_000
    requires c1 <= 999_999 && c2 <= 999_999
    ensures StrLess(EncodeHlc(ms1, c1, d1), EncodeHlc(ms2, c2, d2)) <==> ClockLess(ms1, c1, d1, ms2, c2, d2)
  {
    assert Pow10(6) == 1_000_000;
    assert Pow10(13) == 10_000_000 * Pow10(6);
    var r1, r2 := Digits(c1, 6) + ("-" + d1), Digits(c2, 6) + ("-" + d2);
    DigitsOrder(ms1, ms2, 13, "-" + r1, "-" + r2);
    SeparatorOrder(r1, r2);
    DigitsOrder(c1, c2, 6, "-" + d1, "-" + d2);
    SeparatorOrder(d1, d2);
  }

  // ── past the fixed width ──────────────────────────────────────────────────

  /** Digits of a longer number: the leading ones, then the last. */
  lemma LongDigits(n: nat, x: string)
    requires n >= 10_000_000_000_000
    ensures Digits(n, 13) + x == Digits(n / 10, 13) + ([Digit(n % 10)] + x)
  {
    assert Pow10(6) == 1_000_000 && Pow10(12) == 1_000_000 * Pow10(6);
    Padding(n / 10, 12);
    LastDigit(n, 13, x);
  }

  /** A number that already has `w + 1` digits or more is not padded by one more place. */
  lemma {:induction false} Padding(n: nat, w: nat)
    requires n >= Pow10(w)
    ensures Digits(n, w) == Digits(n, w + 1)
    decreases w
  {
    if w == 0 {
      assert n > 0;
    } else {
      Padding(n / 10, w - 1);
    }
  }

  lemma BelowDigits(a: string, d: nat, x: string)
    requires d < 10
    ensures StrLess("-" + a, [Digit(d)] + x) && !StrLess([Digit(d)] + x, "-" + a)
  {
    assert ("-" + a)[0] == '-' && ([Digit(d)] + x)[0] == Digit(d);
  }

  /** From the first fourteen-digit time on the order is lost: a clock of such
      a time still sorts behind an earlier one of at most thirteen digits if
      and only if the earlier time is at most its leading thirteen digits. */
  lemma StringOrderBreaksIff(ms1: nat, c1: nat, d1: string, ms2: nat, c2: nat, d2: string)
    requires ms1 < 10_000_000_000_000 <= ms2 < 100_000_000_000_000
    ensures StrLess(EncodeHlc(ms1, c1, d1), EncodeHlc(ms2, c2, d2)) <==> ms1 <= ms2 / 10
    ensures StrLess(EncodeHlc(ms2, c2, d2), EncodeHlc(ms1, c1, d1)) <==> ms1 > ms2 / 10
  {
    var r1, r2 := Digits(c1, 6) + ("-" + d1), "-" + (Digits(c2, 6) + ("-" + d2));
    LongDigits(ms2, r2);
    assert Pow10(6) == 1_000_000 && Pow10(13) == 10_000_000 * Pow10(6);
    DigitsOrder(ms1, ms2 / 10, 13, "-" + r1, [Digit(ms2 % 10)] + r2);
    DigitsOrder(ms2 / 10, ms1, 13, [Digit(ms2 % 10)] + r2, "-" + r1);
    BelowDigits(r1, ms2 % 10, r2);
  }

  // ── the clock source ──────────────────────────────────────────────────────

  /** One clock as an integer, in the order of its parts. Device names are
      represented by their rank among the user's devices. */
  function Rank(ms: nat, counter: nat, device: nat): int {
    (ms * 1_000_000 + counter) * 1_000_000 + device
  }

  lemma RankIsClockOrder(ms1: nat, c1: nat, d1: nat, ms2: nat, c2: nat, d2: nat)
    requires c1 <= 999_999 && c2 <= 999_999 && d1 < 1_000_000 && d2 < 1_000_000
    ensures Rank(ms1, c1, d1) < Rank(ms2, c2, d2) <==>
      ms1 < ms2 || (ms1 == ms2 && (c1 < c2 || (c1 == c2 && d1 < d2)))
  {
  }

  /** The clock state after one wall-clock reading. */
  function TickTo(ms: nat, c: nat, now: int): (nat, nat) {
    if now > ms then (now, 0) else if c < 999_999 then (ms, c + 1) else (ms + 1, 0)
  }

  /** The next clock is the least one that is later than the last and not
      before the reading. */
  lemma TickIsLeast(ms: nat, c: nat, now: int, ms2: nat, c2: nat)
    requires c <= 999_999 && c2 <= 999_999
    ensures var (nextMs, next) := TickTo(ms, c, now);
      (nextMs < ms2 || (nextMs == ms2 && next <= c2)) <==> now <= ms2 && (ms < ms2 || (ms == ms2 && c < c2))
  {
  }

  /** Monotonic clock source; its state persists with the document. */
  class HlcClock {
    var lastMs: nat
    var counter: nat

    ghost predicate Valid()
      reads this
    {
      counter <= 999_999
    }

    constructor (ms: nat, c: nat)
      requires c <= 999_999
      ensures Valid() && lastMs == ms && counter == c
    {
      lastMs, counter := ms, c;
    }

    /** The next clock, for any wall-clock reading: never earlier than the
        reading, and later than every clock handed out before. */
    method Next(now: int)
      requires Valid()
      modifies this
      ensures Valid() && lastMs >= now && (lastMs, counter) == TickTo(old(lastMs), old(counter), now)
      ensures forall device :: ClockLess(old(lastMs), old(counter), device, lastMs, counter, device)
      ensures forall device: nat :: device < 1_000_000 ==>
        Rank(old(lastMs), old(counter), device) < Rank(lastMs, counter, device)
      ensures lastMs < 10_000_000_000_000 ==> forall device ::
        StrLess(EncodeHlc(old(lastMs), old(counter), device), EncodeHlc(lastMs, counter, device))
    {
      if now > lastMs {
        lastMs, counter := now, 0;
      } else {
        counter := counter + 1;
        if counter > 999_999 {
          lastMs, counter := lastMs + 1, 0;
        }
      }
      if lastMs < 10_000_000_000_000 {
        forall device
          ensures StrLess(EncodeHlc(old(lastMs), old(counter), device), EncodeHlc(lastMs, counter, device))
        {
          StringOrderIsClockOrder(old(lastMs), old(counter), device, lastMs, counter, device);
        }
      }
    }
  }

  // ── runs with restarts ────────────────────────────────────────────────────

  type Stamp = (nat, nat)

  predicate Earlier(a: Stamp, b: Stamp) {
    a.0 < b.0 || (a.0 == b.0 && a.1 < b.1)
  }

  /** A reading hands out the next clock; a reload goes back to the state
      saved when `k` clocks had been handed out. */
  datatype Event = Tick(now: int) | Reload(k: nat)

  /** The first state and every clock handed out so far, on all runs of the
      process, and the state the running process has. */
  datatype Source = Source(stamps: seq<Stamp>, current: Stamp)

  function After(s: Source, e: Event): Source {
    match e
    case Tick(now) =>
      var t := TickTo(s.current.0, s.current.1, now);
      Source(s.stamps + [t], t)
    case Reload(k) => if k < |s.stamps| then s.(current := s.stamps[k]) else s
  }

  function Run(first: Stamp, events: seq<Event>): Source {
    if events == [] then Source([first], first)
    else After(Run(first, events[..|events| - 1]), events[|events| - 1])
  }

  ghost predicate GoodSource(s: Source) {
    && s.stamps != [] && s.current in s.stamps && forall t :: t in s.stamps ==> t.1 <= 999_999
  }

  lemma {:induction false} RunGood(first: Stamp, events: seq<Event>)
    requires first.1 <= 999_999
    ensures GoodSource(Run(first, events))
    decreases |events|
  {
    if events == [] {
    } else {
      RunGood(first, events[..|events| - 1]);
    }
  }

  /** Every clock is later than all before it. */
  ghost predicate Rises(stamps: seq<Stamp>) {
    forall i, j :: 0 <= i < j < |stamps| ==> Earlier(stamps[i], stamps[j])
  }

  /** The next reading is safe: the process has the newest state, or the wall
      clock reads later than the newest clock. */
  predicate TickAhead(s: Source, now: int)
    requires s.stamps != []
  {
    s.current == s.stamps[|s.stamps| - 1] || now > s.stamps[|s.stamps| - 1].0
  }

  /** Reading after a reload: the new clock is later than the newest one ever
      handed out if and only if nothing was handed out since that state was
      saved, or the wall clock reads later than the newest clock. */
  lemma TickAheadIff(current: Stamp, newest: Stamp, now: int)
    requires current.1 <= 999_999 && newest.1 <= 999_999 && (current == newest || Earlier(current, newest))
    ensures Earlier(newest, TickTo(current.0, current.1, now)) <==> current == newest || now > newest.0
  {
  }

  lemma RisesSnoc(stamps: seq<Stamp>, t: Stamp)
    requires stamps != []
    ensures Rises(stamps + [t]) <==> Rises(stamps) && Earlier(stamps[|stamps| - 1], t)
  {
    var all, n := stamps + [t], |stamps|;
    if Rises(all) {
      assert Earlier(all[n - 1], all[n]);
      forall i, j | 0 <= i < j < n ensures Earlier(stamps[i], stamps[j]) {
        assert Earlier(all[i], all[j]);
      }
    }
    if Rises(stamps) && Earlier(stamps[n - 1], t) {
      forall i | 0 <= i < n ensures Earlier(all[i], all[n]) {
        assert i == n - 1 || Earlier(stamps[i], stamps[n - 1]);
      }
    }
  }

  /** Every reading of the run was safe. */
  ghost predicate AllAhead(first: Stamp, events: seq<Event>)
    requires first.1 <= 999_999
    decreases |events|
  {
    events != [] ==>
      var front, e := events[..|events| - 1], events[|events| - 1];
      && AllAhead(first, front)
      && (e.Tick? ==> Run(first, front).stamps != [] && TickAhead(Run(first, front), e.now))
  }

  /** Over any run of readings, regressions, restarts and reloads of older
      states: the clocks of one device strictly increase if and only if every
      reading found the newest state or a later time. */
  lemma {:induction false} RisesIff(first: Stamp, events: seq<Event>)
    requires first.1 <= 999_999
    ensures Rises(Run(first, events).stamps) <==> AllAhead(first, events)
    decreases |events|
  {
    if events == [] {
    } else {
      var front, e := events[..|events| - 1], events[|events| - 1];
      RisesIff(first, front);
      RunGood(first, front);
      var s := Run(first, front);
      if e.Tick? {
        RisesSnoc(s.stamps, TickTo(s.current.0, s.current.1, e.now));
        if Rises(s.stamps) {
          var i :| 0 <= i < |s.stamps| && s.stamps[i] == s.current;
          TickAheadIff(s.current, s.stamps[|s.stamps| - 1], e.now);
        }
      }
    }
  }

  /** The clocks of a run, as strings, increase pairwise. */
  ghost predicate StringsRise(stamps: seq<Stamp>, device: string) {
    forall i, j :: 0 <= i < j < |stamps| ==>
      StrLess(EncodeHlc(stamps[i].0, stamps[i].1, device), EncodeHlc(stamps[j].0, stamps[j].1, device))
  }

  lemma StampOrder(a: Stamp, b: Stamp, device: string)
    requires a.0 < 10_000_000_000_000 && b.0 < 10_000_000_000_000 && a.1 <= 999_999 && b.1 <= 999_999
    ensures StrLess(EncodeHlc(a.0, a.1, device), EncodeHlc(b.0, b.1, device)) <==> Earlier(a, b)
  {
    StringOrderIsClockOrder(a.0, a.1, device, b.0, b.1, device);
    NotBelowItself(device);
  }

  lemma {:induction false} NotBelowItself(s: string)
    ensures !StrLess(s, s)
    decreases |s|
  {
    if s == "" {
    } else {
      NotBelowItself(s[1..]);
    }
  }

  /** Main result on clocks: while the times have thirteen digits, a device's
      clock strings strictly increase over a run with restarts if and only if
      no reading after the reload of an older state is behind the newest clock. */
  lemma ClocksIncreaseIff(first: Stamp, events: seq<Event>, device: string)
    requires first.1 <= 999_999
    requires forall t :: t in Run(first, events).stamps ==> t.0 < 10_000_000_000_000
    ensures StringsRise(Run(first, events).stamps, device) <==> AllAhead(first, events)
  {
    var stamps := Run(first, events).stamps;
    RunGood(first, events);
    RisesIff(first, events);
    forall i, j | 0 <= i < j < |stamps|
      ensures StrLess(EncodeHlc(stamps[i].0, stamps[i].1, device), EncodeHlc(stamps[j].0, stamps[j].1, device))
         <==> Earlier(stamps[i], stamps[j])
    {
      StampOrder(stamps[i], stamps[j], device);
    }
  }

  /** A process that always loads its newest state needs no condition at all. */
  lemma {:induction false} NewestStateSuffices(first: Stamp, events: seq<Event>)
    requires first.1 <= 999_999
    requires forall i :: 0 <= i < |events| && events[i].Reload? ==> events[i].k >= |Run(first, events[..i]).stamps| - 1
    ensures AllAhead(first, events)
    ensures var s := Run(first, events); s.stamps != [] && s.current == s.stamps[|s.stamps| - 1]
    decreases |events|
  {
    if events == [] {
    } else {
      var front := events[..|events| - 1];
      forall i | 0 <= i < |front| && front[i].Reload? ensures front[i].k >= |Run(first, front[..i]).stamps| - 1 {
        assert front[i] == events[i] && front[..i] == events[..i];
      }
      NewestStateSuffices(first, front);
    }
  }

  /** A clock handed out twice: saved, read, reloaded from the older state, and
      read again while the wall clock stands at or behind the saved time. */
  lemma ReloadReissues(first: Stamp, now1: int, now2: int)
    requires now1 <= first.0 && now2 <= first.0
    ensures var s := Run(first, [Tick(now1), Reload(0), Tick(now2)]).stamps; |s| == 3 && s[1] == s[2]
  {
    var events := [Tick(now1), Reload(0), Tick(now2)];
    assert events[..2] == [Tick(now1), Reload(0)] && events[..2][..1] == [Tick(now1)] && events[..2][..1][..0] == [];
    assert Run(first, events[..2][..1]) == After(Run(first, []), Tick(now1));
    assert Run(first, events[..2]) == After(Run(first, events[..2][..1]), Reload(0));
  }
}
