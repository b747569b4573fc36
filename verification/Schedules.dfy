/** Round robin and weighted round robin: what call number k picks, and how often
    a server is picked in a window of calls. */
module Schedules {

  // ------------------------------------------------------- counting in windows

  /** How many of the `m` calls from `a` on pick `x`. */
  ghost function Count(pick: nat -> nat, a: nat, m: nat, x: nat): nat
    decreases m
  {
    if m == 0 then 0 else (if pick(a) == x then 1 else 0) + Count(pick, a + 1, m - 1, x)
  }

  lemma {:induction false} CountSplits(pick: nat -> nat, a: nat, m: nat, k: nat, x: nat)
    ensures Count(pick, a, m + k, x) == Count(pick, a, m, x) + Count(pick, a + m, k, x)
    decreases m
  {
    if m > 0 {
      CountSplits(pick, a + 1, m - 1, k, x);
    }
  }

  /** In a periodic schedule every window of one period picks alike. */
  lemma {:induction false} WindowsAlike(pick: nat -> nat, period: nat, a: nat, x: nat)
    requires forall k: nat :: pick(k + period) == pick(k)
    ensures Count(pick, a, period, x) == Count(pick, 0, period, x)
    decreases a
  {
    if a > 0 && period > 0 {
      WindowsAlike(pick, period, a - 1, x);
      CountSplits(pick, a - 1, 1, period, x);
      CountSplits(pick, a - 1, period, 1, x);
      assert pick(a - 1 + period) == pick(a - 1);
      assert Count(pick, a - 1, 1, x) == Count(pick, a - 1 + period, 1, x) by {
        assert Count(pick, a, 0, x) == 0 && Count(pick, a + period, 0, x) == 0;
      }
    }
  }

  lemma {:induction false} CountOfSeq(pick: nat -> nat, s: seq<nat>, a: nat, x: nat)
    requires a <= |s| && forall k: nat | k < |s| :: pick(k) == s[k]
    ensures Count(pick, a, |s| - a, x) == multiset(s[a..])[x]
    decreases |s| - a
  {
    if a < |s| {
      CountOfSeq(pick, s, a + 1, x);
      CountOfRest(s, a, x);
    }
  }

  lemma CountOfRest(s: seq<nat>, a: nat, x: nat)
    requires a < |s|
    ensures multiset(s[a..])[x] == (if s[a] == x then 1 else 0) + multiset(s[a + 1..])[x]
  {
    assert s[a..] == [s[a]] + s[a + 1..];
  }

  lemma ModStep(k: nat, t: nat)
    requires t > 0
    ensures (k + 1) % t == (k % t + 1) % t
  {
    var q, r := k / t, k % t;
    assert k == q * t + r;
    if r + 1 < t {
      ModIs(k + 1, t, q, r + 1);
      ModIs(r + 1, t, 0, r + 1);
    } else {
      assert (q + 1) * t == q * t + t;
      ModIs(k + 1, t, q + 1, 0);
      ModIs(r + 1, t, 1, 0);
    }
  }

  lemma ModIs(k: nat, t: nat, q: nat, r: nat)
    requires 0 <= r < t && k == q * t + r
    ensures k % t == r && k / t == q
  {
    var q', r' := k / t, k % t;
    assert k == t * q' + r' && 0 <= r' < t;
    NoOtherQuotient(q, q', t, r, r');
    NoOtherQuotient(q', q, t, r', r);
  }

  lemma NoOtherQuotient(q: nat, q': nat, t: nat, r: nat, r': nat)
    requires q * t + r == q' * t + r' && r < t && r' < t
    ensures q' <= q
  {
    Times(q' - q, t);
    assert (q' - q) * t == q' * t - q * t;
  }

  lemma Times(d: int, t: nat)
    ensures d >= 1 ==> d * t >= t
  {
    if d >= 1 {
      assert d * t == (d - 1) * t + t;
      assert (d - 1) * t >= 0;
    }
  }

  lemma ModShift(k: nat, t: nat)
    requires t > 0
    ensures (k + t) % t == k % t && (k < t ==> k % t == k)
  {
    var q := k / t;
    assert (q + 1) * t == q * t + t;
    ModIs(k + t, t, q + 1, k % t);
    if k < t {
      ModIs(k, t, 0, k);
    }
  }

  // ------------------------------------------------------------ round robin

  function RoundStep(index: int, n: nat): int
    requires n > 0 && index >= -1
  {
    (index + 1) % n
  }

  /** The index after `k` calls on `n` servers, whatever it was before. */
  function RoundOn(n: nat, index: int, k: nat): (r: int)
    requires n > 0 && index >= -1
    ensures r >= -1
  {
    if k == 0 then index else RoundStep(RoundOn(n, index, k - 1), n)
  }

  /** The static index after `k` calls. */
  function RoundAfter(n: nat, k: nat): (r: int)
    requires n > 0
    ensures r >= -1
  {
    RoundOn(n, -1, k)
  }

  /** The index call `k` picks. */
  function RoundPick(n: nat, k: nat): (r: int)
    requires n > 0
  {
    RoundAfter(n, k + 1)
  }

  /** From any index, also one at or past the end of a list that has shrunk, the
      picks go on one by one, mod n. */
  lemma {:induction false} RoundFromAny(n: nat, index: int, k: nat)
    requires n > 0 && index >= -1
    ensures RoundOn(n, index, k + 1) == (index + 1 + k) % n
  {
    RoundOnStep(n, index, k);
    hide RoundOn, RoundStep;
    if k > 0 {
      RoundFromAny(n, index, k - 1);
      ModStep(index + k, n);
    }
  }

  lemma RoundOnStep(n: nat, index: int, k: nat)
    requires n > 0 && index >= -1
    ensures RoundOn(n, index, k + 1) == (RoundOn(n, index, k) + 1) % n && RoundOn(n, index, 0) == index
  {
  }

  lemma RoundPickIs(n: nat, k: nat)
    requires n > 0
    ensures RoundPick(n, k) == k % n
  {
    RoundFromAny(n, -1, k);
  }

  ghost function RoundPicks(n: nat): nat -> nat
    requires n > 0
  {
    (k: nat) => k % n
  }

  lemma RoundOnceEach(n: nat, a: nat, x: nat)
    requires x < n
    ensures Count(RoundPicks(n), a, n, x) == 1
  {
    var pick := RoundPicks(n);
    var s := seq(n, i => i);
    forall k: nat
      ensures pick(k + n) == pick(k)
      ensures k < n ==> pick(k) == s[k]
    {
      ModShift(k, n);
    }
    WindowsAlike(pick, n, a, x);
    CountOfSeq(pick, s, 0, x);
    assert s[0..] == s;
    OneOfEach(n, x);
  }

  lemma {:induction false} OneOfEach(n: nat, x: nat)
    ensures multiset(seq(n, i => i))[x] == if x < n then 1 else 0
    decreases n
  {
    if n > 0 {
      OneOfEach(n - 1, x);
      assert seq(n, i => i) == seq(n - 1, i => i) + [n - 1];
    }
  }

  lemma RoundPicksAre(n: nat, k: nat)
    requires n > 0
    ensures RoundPicks(n)(k) == RoundPick(n, k)
  {
    RoundPickIs(n, k);
  }

  /** Any `m` consecutive calls give each of `n` servers m/n picks, rounded down
      or up. */
  lemma RoundIsBalanced(n: nat, a: nat, m: nat, x: nat)
    requires x < n
    ensures forall k: nat :: RoundPicks(n)(k) == RoundPick(n, k)
    ensures m / n <= Count(RoundPicks(n), a, m, x) <= (m + n - 1) / n
  {
    hide Count, RoundPick, RoundPicks;
    forall k: nat
      ensures RoundPicks(n)(k) == RoundPick(n, k)
    {
      RoundPicksAre(n, k);
    }
    WindowIsBalanced(n, a, m, x);
  }

  lemma {:induction false} WindowIsBalanced(n: nat, a: nat, m: nat, x: nat)
    requires x < n
    ensures m / n <= Count(RoundPicks(n), a, m, x) <= (m + n - 1) / n
    decreases m
  {
    var pick := RoundPicks(n);
    CountNone(pick, a, x);
    hide Count, RoundPicks;
    RoundOnceEach(n, a, x);
    if m >= n {
      CountSplits(pick, a, n, m - n, x);
      WindowIsBalanced(n, a + n, m - n, x);
      DivStep(m, n);
      DivStep(m + n - 1, n);
    } else {
      CountSplits(pick, a, m, n - m, x);
      PartOfRound(m, n);
    }
  }

  lemma CountNone(pick: nat -> nat, a: nat, x: nat)
    ensures Count(pick, a, 0, x) == 0
  {
  }

  lemma PartOfRound(m: nat, n: nat)
    requires m < n
    ensures m / n == 0 && (m + n - 1) / n == if m > 0 then 1 else 0
  {
    ModIs(m, n, 0, m);
    if m > 0 {
      ModIs(m + n - 1, n, 1, m - 1);
    } else {
      ModIs(n - 1, n, 0, n - 1);
    }
  }

  lemma DivStep(m: nat, n: nat)
    requires 0 < n <= m
    ensures m / n == (m - n) / n + 1
  {
    var q, r := (m - n) / n, (m - n) % n;
    assert (q + 1) * n == q * n + n;
    ModIs(m, n, q + 1, r);
  }

  // ---------------------------------------------------- weighted round robin

  /** The two static variables. */
  datatype Turn = Turn(index: int, weight: int)

  const START: Turn := Turn(-1, 0)

  function WeightedStep(ws: seq<int>, s: Turn): (r: Turn)
    requires ws != [] && s.index >= -1
    ensures r.index >= -1
  {
    var weight := if s.weight > 0 then s.weight - 1 else s.weight;
    if weight == 0 then
      var index := (s.index + 1) % |ws|;
      Turn(index, ws[index])
    else Turn(s.index, weight)
  }

  /** The state after `k` weighted calls on one list. */
  function WeightedOn(ws: seq<int>, s: Turn, k: nat): (r: Turn)
    requires ws != [] && s.index >= -1
    ensures r.index >= -1
  {
    if k == 0 then s else WeightedStep(ws, WeightedOn(ws, s, k - 1))
  }

  function WeightedAfter(ws: seq<int>, k: nat): (r: Turn)
    requires ws != []
    ensures r.index >= -1
  {
    WeightedOn(ws, START, k)
  }

  /** The index call `k` picks. */
  function WeightedPick(ws: seq<int>, k: nat): int
    requires ws != []
  {
    WeightedAfter(ws, k + 1).index
  }

  /** The turns a weight is worth. */
  function Turns(w: int): nat {
    if w < 1 then 1 else w
  }

  /** The turns of the first `i` servers. */
  function Before(ws: seq<int>, i: nat): nat
    requires i <= |ws|
  {
    if i == 0 then 0 else Before(ws, i - 1) + Turns(ws[i - 1])
  }

  function Period(ws: seq<int>): nat {
    Before(ws, |ws|)
  }

  function Repeat(m: nat, v: nat): (r: seq<nat>)
    ensures |r| == m && forall k | 0 <= k < m :: r[k] == v
  {
    seq(m, _ => v)
  }

  /** Server i repeated as often as it has turns. */
  function Expanded(ws: seq<int>, i: nat): (r: seq<nat>)
    requires i <= |ws|
    ensures |r| == Before(ws, i)
  {
    if i == 0 then [] else Expanded(ws, i - 1) + Repeat(Turns(ws[i - 1]), i - 1)
  }

  lemma {:induction false} BeforeGrows(ws: seq<int>, i: nat, j: nat)
    requires i <= j <= |ws|
    ensures Before(ws, i) + (j - i) <= Before(ws, j)
  {
    if i < j {
      BeforeGrows(ws, i, j - 1);
    }
  }

  lemma ExpandedNone(ws: seq<int>)
    ensures Expanded(ws, 0) == []
  {
  }

  lemma ExpandedStep(ws: seq<int>, n: nat)
    requires 0 < n <= |ws|
    ensures Before(ws, n) == Before(ws, n - 1) + Turns(ws[n - 1])
    ensures Expanded(ws, n) == Expanded(ws, n - 1) + Repeat(Turns(ws[n - 1]), n - 1)
  {
  }

  lemma {:induction false} ExpandedAt(ws: seq<int>, i: nat, n: nat, p: nat)
    requires i < n <= |ws| && Before(ws, i) <= p < Before(ws, i + 1)
    ensures p < Before(ws, n) && Expanded(ws, n)[p] == i
    decreases n
  {
    hide Expanded, Before, Turns;
    ExpandedStep(ws, n);
    if i + 1 < n {
      BeforeGrows(ws, i + 1, n - 1);
      ExpandedAt(ws, i, n - 1, p);
    }
  }

  lemma {:induction false} ExpandedCounts(ws: seq<int>, n: nat, i: nat)
    requires n <= |ws|
    ensures multiset(Expanded(ws, n))[i] == if i < n then Turns(ws[i]) else 0
  {
    hide Expanded, Before, Turns, Repeat;
    if n == 0 {
      ExpandedNone(ws);
    } else {
      ExpandedCounts(ws, n - 1, i);
      Repeated(Turns(ws[n - 1]), n - 1, i);
      ExpandedStep(ws, n);
      CountsAdd(Expanded(ws, n - 1), Repeat(Turns(ws[n - 1]), n - 1), i);
    }
  }

  lemma CountsAdd(a: seq<nat>, b: seq<nat>, x: nat)
    ensures multiset(a + b)[x] == multiset(a)[x] + multiset(b)[x]
  {
  }

  lemma {:induction false} Repeated(m: nat, v: nat, i: nat)
    ensures multiset(Repeat(m, v))[i] == if i == v then m else 0
  {
    if m > 0 {
      Repeated(m - 1, v, i);
      assert Repeat(m, v) == Repeat(m - 1, v) + [v];
    }
  }

  /** The state in slot `p` of the period: the server whose turn it is, and its
      turns left, this one included. */
  predicate AtSlot(ws: seq<int>, s: Turn, p: nat) {
    && 0 <= s.index < |ws|
    && Before(ws, s.index) <= p < Before(ws, s.index + 1)
    && s.weight == if ws[s.index] <= 0 then ws[s.index] else Before(ws, s.index + 1) - p
  }

  lemma SlotStep(ws: seq<int>, s: Turn, p: nat)
    requires ws != [] && AtSlot(ws, s, p) && ws[s.index] >= 0
    ensures p < Period(ws)
    ensures AtSlot(ws, WeightedStep(ws, s), if p + 1 < Period(ws) then p + 1 else 0)
  {
    var i, n := s.index, |ws|;
    BeforeGrows(ws, i + 1, n);
    if s.weight <= 1 {
      assert p + 1 == Before(ws, i + 1);
      if i + 1 < n {
        BeforeGrows(ws, i + 2, n);
        ModIs(i + 1, n, 0, i + 1);
      } else {
        ModIs(n, n, 1, 0);
        assert Before(ws, 1) == Turns(ws[0]);
      }
    }
  }

  lemma FirstSlot(ws: seq<int>)
    requires ws != []
    ensures AtSlot(ws, WeightedAfter(ws, 1), 0)
  {
    ModIs(0, |ws|, 0, 0);
    assert WeightedAfter(ws, 0) == START;
    assert Before(ws, 1) == Turns(ws[0]);
  }

  lemma {:induction false} SlotAfter(ws: seq<int>, k: nat)
    requires ws != [] && forall w <- ws :: w >= 0
    ensures Period(ws) > 0 && AtSlot(ws, WeightedAfter(ws, k + 1), k % Period(ws))
  {
    BeforeGrows(ws, 0, |ws|);
    hide AtSlot, Before, WeightedStep;
    var t := Period(ws);
    if k == 0 {
      FirstSlot(ws);
      ModIs(0, t, 0, 0);
    } else {
      SlotAfter(ws, k - 1);
      SlotIndex(ws, WeightedAfter(ws, k), (k - 1) % t);
      SlotStep(ws, WeightedAfter(ws, k), (k - 1) % t);
      NextMod(k - 1, t);
    }
  }

  lemma SlotIndex(ws: seq<int>, s: Turn, p: nat)
    requires ws != [] && AtSlot(ws, s, p)
    ensures 0 <= s.index < |ws| && ws[s.index] in ws
  {
  }

  lemma NextMod(k: nat, t: nat)
    requires t > 0
    ensures (k + 1) % t == if k % t + 1 < t then k % t + 1 else 0
  {
    ModStep(k, t);
    var p := k % t;
    ModIs(p + 1, t, if p + 1 < t then 0 else 1, if p + 1 < t then p + 1 else 0);
  }

  /** Call `k` picks entry `k mod period` of the expanded list, for every `k`. */
  ghost predicate ScheduleExact(ws: seq<int>)
    requires ws != []
  {
    Period(ws) > 0 && forall k: nat :: WeightedPick(ws, k) == Expanded(ws, |ws|)[k % Period(ws)]
  }

  ghost function WeightedPicks(ws: seq<int>): nat -> nat
    requires ws != [] && Period(ws) > 0
  {
    Cyclic(Expanded(ws, |ws|))
  }

  /** A list read round and round. */
  ghost function Cyclic(s: seq<nat>): nat -> nat
    requires s != []
  {
    (k: nat) => s[k % |s|]
  }

  lemma WeightedPickIs(ws: seq<int>, k: nat)
    requires ws != [] && forall w <- ws :: w >= 0
    ensures Period(ws) > 0 && WeightedPick(ws, k) == Expanded(ws, |ws|)[k % Period(ws)]
  {
    SlotAfter(ws, k);
    var i := WeightedAfter(ws, k + 1).index;
    ExpandedAt(ws, i, |ws|, k % Period(ws));
  }

  lemma CyclicPeriodic(s: seq<nat>, k: nat)
    requires s != []
    ensures Cyclic(s)(k + |s|) == Cyclic(s)(k)
    ensures k < |s| ==> Cyclic(s)(k) == s[k]
  {
    ModShift(k, |s|);
  }

  lemma PicksPeriodic(ws: seq<int>, k: nat)
    requires ws != [] && Period(ws) > 0
    ensures WeightedPicks(ws)(k + Period(ws)) == WeightedPicks(ws)(k)
    ensures k < Period(ws) ==> WeightedPicks(ws)(k) == Expanded(ws, |ws|)[k]
  {
    hide Before, Expanded, Cyclic;
    CyclicPeriodic(Expanded(ws, |ws|), k);
  }

  lemma PicksAre(ws: seq<int>, k: nat)
    requires ws != [] && forall w <- ws :: w >= 0
    ensures Period(ws) > 0 && WeightedPicks(ws)(k) == WeightedPick(ws, k)
  {
    WeightedPickIs(ws, k);
    hide Period, Expanded, WeightedPick;
  }

  /** Any window of one period, wherever it starts, picks each server as often as
      it has turns. */
  lemma WindowIsFair(ws: seq<int>, a: nat, i: nat)
    requires i < |ws| && forall w <- ws :: w >= 0
    ensures Period(ws) > 0
    ensures forall k: nat :: WeightedPicks(ws)(k) == WeightedPick(ws, k)
    ensures Count(WeightedPicks(ws), a, Period(ws), i) == Turns(ws[i])
  {
    hide WeightedPick, WeightedPicks, Expanded, Before, Count;
    forall k: nat
      ensures Period(ws) > 0 && WeightedPicks(ws)(k) == WeightedPick(ws, k)
    {
      PicksAre(ws, k);
    }
    PicksAre(ws, 0);
    forall k: nat
      ensures WeightedPicks(ws)(k + Period(ws)) == WeightedPicks(ws)(k)
      ensures k < Period(ws) ==> WeightedPicks(ws)(k) == Expanded(ws, |ws|)[k]
    {
      PicksPeriodic(ws, k);
    }
    WindowsAlike(WeightedPicks(ws), Period(ws), a, i);
    FirstWindow(ws, WeightedPicks(ws), i);
  }

  lemma FirstWindow(ws: seq<int>, pick: nat -> nat, i: nat)
    requires i < |ws| && forall k: nat | k < Period(ws) :: pick(k) == Expanded(ws, |ws|)[k]
    ensures Count(pick, 0, Period(ws), i) == Turns(ws[i])
  {
    var s := Expanded(ws, |ws|);
    CountOfSeq(pick, s, 0, i);
    assert s[0..] == s;
    ExpandedCounts(ws, |ws|, i);
  }

  // --------------------------------------------------------- from any state

  lemma {:induction false} TurnsLeft(ws: seq<int>, s: Turn, k: nat)
    requires ws != [] && s.index >= -1 && (k == 0 || k < s.weight)
    ensures WeightedOn(ws, s, k) == Turn(s.index, s.weight - k)
  {
    if k > 0 {
      TurnsLeft(ws, s, k - 1);
    }
  }

  lemma {:induction false} SlotsOn(ws: seq<int>, s: Turn, from: nat, p: nat, k: nat)
    requires ws != [] && s.index >= -1 && (forall w <- ws :: w >= 0)
    requires AtSlot(ws, WeightedOn(ws, s, from), p)
    ensures Period(ws) > 0 && AtSlot(ws, WeightedOn(ws, s, from + k), (p + k) % Period(ws))
  {
    hide AtSlot, Before, WeightedStep;
    var t := Period(ws);
    if k == 0 {
      SlotIndex(ws, WeightedOn(ws, s, from), p);
      SlotStep(ws, WeightedOn(ws, s, from), p);
      ModIs(p, t, 0, p);
    } else {
      SlotsOn(ws, s, from, p, k - 1);
      var now := WeightedOn(ws, s, from + k - 1);
      SlotIndex(ws, now, (p + k - 1) % t);
      SlotStep(ws, now, (p + k - 1) % t);
      NextMod(p + k - 1, t);
    }
  }

  lemma MovesOn(ws: seq<int>, s: Turn)
    requires ws != [] && s.index >= -1 && 0 <= s.weight <= 1
    ensures var j := (s.index + 1) % |ws|; AtSlot(ws, WeightedStep(ws, s), Before(ws, j))
  {
    var n := |ws|;
    var q := (s.index + 1) / n;
    assert s.index + 1 == n * q + (s.index + 1) % n;
  }

  /** From whatever state earlier lists have left: the turns that are left of the
      server picked last, and then the expanded list, from the next server on. */
  lemma WeightedFromAny(ws: seq<int>, s: Turn, k: nat)
    requires ws != [] && s.index >= -1 && s.weight >= 0 && forall w <- ws :: w >= 0
    ensures var stay := if s.weight == 0 then 0 else s.weight - 1;
            && (k < stay ==> WeightedOn(ws, s, k + 1).index == s.index)
            && (k >= stay ==>
                  && Period(ws) > 0
                  && WeightedOn(ws, s, k + 1).index
                  == Expanded(ws, |ws|)[(Before(ws, (s.index + 1) % |ws|) + (k - stay)) % Period(ws)])
  {
    var stay := if s.weight == 0 then 0 else s.weight - 1;
    if k < stay {
      TurnsLeft(ws, s, k + 1);
    } else {
      TurnsLeft(ws, s, stay);
      MovesOn(ws, WeightedOn(ws, s, stay));
      hide WeightedStep, Before, Expanded;
      var p := Before(ws, (s.index + 1) % |ws|);
      SlotsOn(ws, s, stay + 1, p, k - stay);
      PickAtSlot(ws, WeightedOn(ws, s, k + 1), (p + (k - stay)) % Period(ws));
    }
  }

  lemma PickAtSlot(ws: seq<int>, s: Turn, p: nat)
    requires ws != [] && AtSlot(ws, s, p)
    ensures p < Period(ws) && Expanded(ws, |ws|)[p] == s.index
  {
    ExpandedAt(ws, s.index, |ws|, p);
  }

  // ------------------------------------------------------- negative weights

  /** Up to the first negative weight the schedule is kept. */
  lemma {:induction false} SlotUntil(ws: seq<int>, j: nat, k: nat)
    requires j < |ws| && (forall i | 0 <= i < j :: ws[i] >= 0) && k <= Before(ws, j)
    ensures AtSlot(ws, WeightedAfter(ws, k + 1), k)
  {
    if k == 0 {
      FirstSlot(ws);
    } else {
      SlotUntil(ws, j, k - 1);
      var s := WeightedAfter(ws, k);
      BeforeGrows(ws, j, |ws|);
      if s.index >= j {
        BeforeGrows(ws, j, s.index);
      }
      SlotStep(ws, s, k - 1);
      BeforeGrows(ws, j + 1, |ws|);
    }
  }

  /** A negative weight is never worked off: its server is picked for good. */
  lemma NegativeStays(ws: seq<int>, s: Turn)
    requires ws != [] && s.index >= -1 && s.weight < 0
    ensures WeightedStep(ws, s) == s
  {
  }

  lemma {:induction false} OneServer(ws: seq<int>, k: nat)
    requires |ws| == 1
    ensures WeightedPick(ws, k) == 0
  {
    if k > 0 {
      OneServer(ws, k - 1);
      ModIs(1, 1, 1, 0);
    } else {
      assert WeightedAfter(ws, 0) == START;
      ModIs(0, 1, 0, 0);
    }
  }

  lemma NegativeBreaks(ws: seq<int>, j: nat)
    requires j < |ws| && |ws| > 1 && ws[j] < 0 && forall i | 0 <= i < j :: ws[i] >= 0
    ensures !ScheduleExact(ws)
  {
    var k := Before(ws, j);
    SlotUntil(ws, j, k);
    var s, t := WeightedAfter(ws, k + 1), Period(ws);
    AtStart(ws, s, j);
    NegativeStays(ws, s);
    assert WeightedPick(ws, k + 1) == j;
    BeforeGrows(ws, j + 1, |ws|);
    if j + 1 < |ws| {
      BeforeGrows(ws, j + 2, |ws|);
      ModIs(k + 1, t, 0, k + 1);
      ExpandedAt(ws, j + 1, |ws|, k + 1);
    } else {
      ModIs(t, t, 1, 0);
      assert Before(ws, 1) == Turns(ws[0]);
      ExpandedAt(ws, 0, |ws|, 0);
    }
  }

  lemma AtStart(ws: seq<int>, s: Turn, j: nat)
    requires j < |ws| && AtSlot(ws, s, Before(ws, j))
    ensures s.index == j
  {
    if s.index < j {
      BeforeGrows(ws, s.index + 1, j);
    } else {
      BeforeGrows(ws, j, s.index);
    }
  }

  /** The expanded schedule holds for ever exactly when no weight is negative, or
      there is one server only. */
  lemma ScheduleExactly(ws: seq<int>)
    requires ws != []
    ensures ScheduleExact(ws) <==> |ws| == 1 || forall w <- ws :: w >= 0
  {
    BeforeGrows(ws, 0, |ws|);
    if forall w <- ws :: w >= 0 {
      forall k: nat {
        WeightedPickIs(ws, k);
      }
    } else if |ws| == 1 {
      forall k: nat
        ensures WeightedPick(ws, k) == Expanded(ws, |ws|)[k % Period(ws)]
      {
        OneServer(ws, k);
        ExpandedAt(ws, 0, 1, k % Period(ws));
      }
    } else {
      var j := FirstNegative(ws);
      NegativeBreaks(ws, j);
    }
  }

  lemma {:induction false} FirstNegative(ws: seq<int>) returns (j: nat)
    requires exists w :: w in ws && w < 0
    ensures j < |ws| && ws[j] < 0 && forall i | 0 <= i < j :: ws[i] >= 0
  {
    j := 0;
    while ws[j] >= 0
      invariant j < |ws| && (forall i | 0 <= i < j :: ws[i] >= 0)
      decreases |ws| - j
    {
      if j + 1 == |ws| {
        assert forall i | 0 <= i < |ws| :: ws[i] >= 0;
        assert false;
      }
      j := j + 1;
    }
  }

  /** Round robin is the case of unit weights. */
  lemma RoundIsUnitWeights(ws: seq<int>, k: nat)
    requires ws != [] && forall w <- ws :: w == 1
    ensures WeightedPick(ws, k) == RoundPick(|ws|, k)
  {
    WeightedPickIs(ws, k);
    RoundPickIs(|ws|, k);
    UnitBefore(ws, |ws|);
    var p := k % |ws|;
    UnitBefore(ws, p);
    UnitBefore(ws, p + 1);
    ExpandedAt(ws, p, |ws|, p);
  }

  lemma {:induction false} UnitBefore(ws: seq<int>, i: nat)
    requires i <= |ws| && forall w <- ws :: w == 1
    ensures Before(ws, i) == i
  {
    if i > 0 {
      UnitBefore(ws, i - 1);
      assert ws[i - 1] in ws;
    }
  }
}
