/** Round-robin hunting for a trunk channel in a wanted state. */
module Hunting {
  import opened Bytes

  /** The item at position a of the endless round over n channels. */
  function Item(a: nat, n: nat): (x: nat)
    requires n > 0
    ensures x < n
  {
    a % n
  }

  /** Position a of the endless round over the channels is in the wanted state. */
  predicate Matches(states: seq<int>, want: int, a: nat)
    requires |states| > 0
  {
    states[a % |states|] == want
  }

  /** The first match among the next left channels from position a on. */
  function Scan(states: seq<int>, want: int, a: nat, left: nat): (r: Option<nat>)
    requires |states| > 0
    ensures r.Some? ==> r.value < |states| && states[r.value] == want
    decreases left
  {
    if left == 0 then None
    else if Matches(states, want, a) then Some(a % |states|)
    else Scan(states, want, a + 1, left - 1)
  }

  /** Matches among positions a up to e. */
  function CountIn(states: seq<int>, want: int, a: nat, e: nat): (c: nat)
    requires |states| > 0 && a <= e
    ensures c <= e - a
    decreases e - a
  {
    if a == e then 0 else (if Matches(states, want, a) then 1 else 0) + CountIn(states, want, a + 1, e)
  }

  /** The view of one board: its channels' states, the first channel number and the item used last. */
  class NetworkChild {
    var states: seq<int>
    var first: int
    var retained: int

    ghost predicate Valid()
      reads this
    {
      -1 <= retained && (retained >= 0 ==> retained < |states|)
    }

    constructor (first: int)
      ensures Valid() && states == [] && this.first == first && retained == -1
    {
      states, this.first, retained := [], first, -1;
    }

    /** One more channel at the end. */
    method AddChannel(state: int)
      requires Valid()
      modifies this`states
      ensures Valid() && states == old(states) + [state]
    {
      states := states + [state];
    }

    /** CNetworkChild::FindChannel: the number of the channel found. */
    method FindChannel(want: int) returns (channel: Option<int>)
      requires Valid()
      modifies this`retained
      ensures Valid()
      ensures |states| == 0 ==> channel == None && retained == old(retained)
      ensures |states| > 0 ==>
        var x := Scan(states, want, old(retained) + 1, |states|);
        channel == (if x.None? then None else Some(first + x.value))
        && retained == (if x.None? then Item(old(retained) + |states|, |states|) else x.value)
    {
      var count := |states|;
      var i := 0;
      ghost var r := retained;
      hide Scan, Item;
      while i < count
        invariant 0 <= i <= count && Valid()
        invariant i == 0 ==> retained == r
        invariant i > 0 ==> retained == Item(r + i, count)
        invariant count > 0 ==> Scan(states, want, r + 1, count) == Scan(states, want, r + 1 + i, count - i)
      {
        var item := retained + 1;
        if i > 0 { NextItem(r + i, count); }
        ScanStep(states, want, r + 1 + i, count - i);
        item := Item(item, count);
        retained := item;
        if states[item] == want { return Some(first + item); }
        i := i + 1;
      }
      if count > 0 { ScanStep(states, want, r + 1 + i, count - i); }
      channel := None;
    }

    /** CNetworkChild::GetChStateCount */
    method GetChStateCount(want: int) returns (count: nat)
      ensures count == |set i | 0 <= i < |states| && states[i] == want|
      ensures |states| > 0 ==> count == CountIn(states, want, 0, |states|)
    {
      count := 0;
      var item := 0;
      ghost var seen: set<int> := {};
      while item < |states|
        invariant 0 <= item <= |states|
        invariant seen == (set i | 0 <= i < item && states[i] == want) && count == |seen|
        invariant |states| > 0 ==> count + CountIn(states, want, item, |states|) == CountIn(states, want, 0, |states|)
      {
        ModSmall(item, |states|);
        if states[item] == want {
          count := count + 1;
          seen := seen + {item};
        }
        item := item + 1;
      }
    }
  }

  lemma ScanStep(states: seq<int>, want: int, a: nat, left: nat)
    requires |states| > 0
    ensures left == 0 ==> Scan(states, want, a, left) == None
    ensures left > 0 ==>
      Scan(states, want, a, left) == if states[Item(a, |states|)] == want then Some(Item(a, |states|)) else Scan(states, want, a + 1, left - 1)
  {}

  // ---------------------------------------------------------------- remainders

  lemma ModSmall(a: nat, n: nat)
    requires a < n
    ensures a % n == a
  {
    DivUnique(a, n, 0);
  }

  lemma ModShift(a: nat, n: nat)
    requires n > 0
    ensures (a + n) % n == a % n
  {
    DivUnique(a + n, n, a / n + 1);
  }

  lemma ModPlus(a: nat, b: nat, n: nat)
    requires n > 0
    ensures (a % n + b) % n == (a + b) % n
  {
    var q := (a % n + b) / n;
    DivUnique(a + b, n, a / n + q);
    assert a + b == (a / n + q) * n + (a % n + b) % n by {
      assert (a / n + q) * n == a / n * n + q * n;
    }
  }

  lemma NextItem(a: nat, n: nat)
    requires n > 0
    ensures Item(Item(a, n) + 1, n) == Item(a + 1, n)
  {
    ModPlus(a, 1, n);
  }

  lemma SameWindow(p: nat, q: nat, n: nat)
    requires n > 0 && p % n == q % n && p <= q < p + n
    ensures p == q
  {
    var d := q / n - p / n;
    assert d * n == q - p by { assert d * n == q / n * n - p / n * n; }
    if d > 0 { MulMonotone(1, d, n); }
    if d < 0 { MulMonotone(d, -1, n); }
  }

  // ---------------------------------------------------------------- one call

  /** The first match from position a on. */
  predicate FirstAt(states: seq<int>, want: int, a: nat, p: nat)
    requires |states| > 0
  {
    a <= p && Matches(states, want, p) && forall q | a <= q < p :: !Matches(states, want, q)
  }

  /** Nothing is found exactly when no channel is in the wanted state; else it is the first one round the circle. */
  lemma {:induction false} ScanFirst(states: seq<int>, want: int, a: nat, left: nat)
    requires |states| > 0
    ensures var r := Scan(states, want, a, left);
      && (r.None? <==> forall p | a <= p < a + left :: !Matches(states, want, p))
      && (r.Some? ==> exists p | a <= p < a + left :: FirstAt(states, want, a, p) && r.value == p % |states|)
    decreases left
  {
    hide Matches;
    if left > 0 {
      if Matches(states, want, a) {
        assert FirstAt(states, want, a, a);
      } else {
        ScanFirst(states, want, a + 1, left - 1);
        var r := Scan(states, want, a + 1, left - 1);
        if r.Some? {
          var p :| a + 1 <= p < a + left && FirstAt(states, want, a + 1, p) && r.value == p % |states|;
          assert FirstAt(states, want, a, p);
        }
      }
    }
  }

  /** Every channel stands in each full round. */
  lemma InRound(x: nat, a: nat, n: nat) returns (p: nat)
    requires x < n
    ensures a <= p < a + n && p % n == x
  {
    var d := (x + n - a % n) % n;
    p := a + d;
    ModPlus(a, d, n);
    ModPlus(x + n - a % n, a % n, n);
    ModShift(x, n);
    ModSmall(x, n);
  }

  lemma NoneExactly(states: seq<int>, want: int, r: int)
    requires |states| > 0 && r >= -1
    ensures Scan(states, want, r + 1, |states|).None? <==> forall i | 0 <= i < |states| :: states[i] != want
  {
    var a := r + 1;
    ScanFirst(states, want, a, |states|);
    if Scan(states, want, a, |states|).None? {
      forall i | 0 <= i < |states| ensures states[i] != want {
        var p := InRound(i, a, |states|);
        assert !Matches(states, want, p);
      }
    }
  }

  // ---------------------------------------------------------------- many calls

  /** The channels that k calls in a row find while the states stay as they are. */
  function Calls(states: seq<int>, want: int, r: int, k: nat): seq<nat>
    requires |states| > 0 && r >= -1
    decreases k
  {
    if k == 0 then []
    else
      var x := Scan(states, want, r + 1, |states|);
      if x.None? then [] else [x.value] + Calls(states, want, x.value, k - 1)
  }

  function First(states: seq<int>, want: int, a: nat, e: nat): (p: nat)
    requires |states| > 0 && a <= e && CountIn(states, want, a, e) > 0
    ensures a <= p < e && Matches(states, want, p) && CountIn(states, want, p + 1, e) == CountIn(states, want, a, e) - 1
    ensures forall q | a <= q < p :: !Matches(states, want, q)
    decreases e - a
  {
    if Matches(states, want, a) then a else First(states, want, a + 1, e)
  }

  /** Positions of the first k matches. */
  function Positions(states: seq<int>, want: int, a: nat, e: nat, k: nat): (s: seq<nat>)
    requires |states| > 0 && a <= e && CountIn(states, want, a, e) >= k
    ensures |s| == k
    decreases k
  {
    if k == 0 then []
    else var p := First(states, want, a, e); [p] + Positions(states, want, p + 1, e, k - 1)
  }

  /** Matches between a and e, in increasing order. */
  predicate Rising(states: seq<int>, want: int, s: seq<nat>, a: nat, e: nat)
    requires |states| > 0
  {
    && (forall j | 0 <= j < |s| :: a <= s[j] < e && Matches(states, want, s[j]))
    && (forall i, j | 0 <= i < j < |s| :: s[i] < s[j])
  }

  lemma {:induction false} PositionsIncrease(states: seq<int>, want: int, a: nat, e: nat, k: nat)
    requires |states| > 0 && a <= e && CountIn(states, want, a, e) >= k
    ensures Rising(states, want, Positions(states, want, a, e, k), a, e)
    decreases k
  {
    hide Matches;
    if k > 0 {
      var p := First(states, want, a, e);
      PositionsIncrease(states, want, p + 1, e, k - 1);
      hide Rising;
      Prepended(states, want, a, e, p, Positions(states, want, p + 1, e, k - 1));
    }
  }

  lemma Prepended(states: seq<int>, want: int, a: nat, e: nat, p: nat, more: seq<nat>)
    requires |states| > 0 && a <= p < e && Matches(states, want, p) && Rising(states, want, more, p + 1, e)
    ensures Rising(states, want, [p] + more, a, e)
  {
    hide Matches;
  }

  /** When the round holds exactly k matches, all of them are taken. */
  lemma {:induction false} PositionsAll(states: seq<int>, want: int, a: nat, e: nat, k: nat, p: nat)
    requires |states| > 0 && a <= e && CountIn(states, want, a, e) == k && a <= p < e && Matches(states, want, p)
    ensures k > 0 && p in Positions(states, want, a, e, k)
    decreases k
  {
    hide Matches;
    CountSome(states, want, a, e, p);
    var f := First(states, want, a, e);
    if p > f { PositionsAll(states, want, f + 1, e, k - 1, p); }
  }

  lemma {:induction false} CountSome(states: seq<int>, want: int, a: nat, e: nat, p: nat)
    requires |states| > 0 && a <= p < e && Matches(states, want, p)
    ensures CountIn(states, want, a, e) > 0
    decreases e - a
  {
    hide Matches;
    if a < p { CountSome(states, want, a + 1, e, p); }
  }

  /** A call from the item before position a finds the next match from a on. */
  lemma {:induction false} ScanIsFirst(states: seq<int>, want: int, b: nat, a: nat, left: nat, e: nat)
    requires |states| > 0 && a <= e && b % |states| == a % |states| && CountIn(states, want, a, e) > 0 && e <= a + left
    ensures Scan(states, want, b, left) == Some(First(states, want, a, e) % |states|)
    decreases left
  {
    var n := |states|;
    if !Matches(states, want, a) {
      ModPlus(a, 1, n);
      ModPlus(b, 1, n);
      ScanIsFirst(states, want, b + 1, a + 1, left - 1, e);
    }
  }

  lemma {:induction false} CallsArePositions(states: seq<int>, want: int, r: int, a: nat, e: nat, k: nat)
    requires |states| > 0 && r >= -1 && a <= e <= a + |states| && (r + 1) % |states| == a % |states|
    requires CountIn(states, want, a, e) >= k
    ensures |Calls(states, want, r, k)| == k
    ensures forall j | 0 <= j < k :: Calls(states, want, r, k)[j] == Positions(states, want, a, e, k)[j] % |states|
    decreases k
  {
    hide Matches, CountIn;
    if k > 0 {
      var p := First(states, want, a, e);
      ScanIsFirst(states, want, r + 1, a, |states|, e);
      ModPlus(p, 1, |states|);
      CallsArePositions(states, want, p % |states|, p + 1, e, k - 1);
    }
  }

  /** Any full round holds each match once. */
  lemma {:induction false} RoundCount(states: seq<int>, want: int, a: nat)
    requires |states| > 0
    ensures CountIn(states, want, a, a + |states|) == CountIn(states, want, 0, |states|)
    decreases a
  {
    var n := |states|;
    if a > 0 {
      RoundCount(states, want, a - 1);
      CountLast(states, want, a, a - 1 + n);
      ModShift(a - 1, n);
    }
  }

  lemma {:induction false} CountLast(states: seq<int>, want: int, a: nat, e: nat)
    requires |states| > 0 && a <= e
    ensures CountIn(states, want, a, e + 1) == CountIn(states, want, a, e) + if Matches(states, want, e) then 1 else 0
    decreases e - a
  {
    hide Matches;
    if a < e { CountLast(states, want, a + 1, e); }
  }

  /** What is found stands at positions of one round. */
  lemma CallsInRound(states: seq<int>, want: int, r: int)
    requires |states| > 0 && r >= -1
    ensures var (k, a) := (CountIn(states, want, 0, |states|), r + 1);
      && CountIn(states, want, a, a + |states|) == k
      && var (c, s) := (Calls(states, want, r, k), Positions(states, want, a, a + |states|, k));
      |c| == k && (forall j | 0 <= j < k :: c[j] == s[j] % |states|) && Rising(states, want, s, a, a + |states|)
  {
    hide CountIn, Positions, Calls, Matches;
    var n, a := |states|, r + 1;
    var k := CountIn(states, want, 0, n);
    RoundCount(states, want, a);
    CallsArePositions(states, want, r, a, a + n, k);
    PositionsIncrease(states, want, a, a + n, k);
  }

  lemma NoneTwice(states: seq<int>, want: int, r: int, i: nat, j: nat)
    requires |states| > 0 && r >= -1 && i < j < CountIn(states, want, 0, |states|)
    ensures var c := Calls(states, want, r, CountIn(states, want, 0, |states|)); |c| > j && c[i] != c[j]
  {
    hide CountIn, Positions, Calls, Matches;
    CallsInRound(states, want, r);
    var n, a := |states|, r + 1;
    var k := CountIn(states, want, 0, n);
    var c, s := Calls(states, want, r, k), Positions(states, want, a, a + n, k);
    var p, q := s[i], s[j];
    if p % n == q % n { SameWindow(p, q, n); }
  }

  lemma NoneMissed(states: seq<int>, want: int, r: int, x: nat)
    requires |states| > 0 && r >= -1
    ensures x in Calls(states, want, r, CountIn(states, want, 0, |states|)) <==> x < |states| && states[x] == want
  {
    hide CountIn, Positions, Calls;
    CallsInRound(states, want, r);
    var n, a := |states|, r + 1;
    var k := CountIn(states, want, 0, n);
    var c, s := Calls(states, want, r, k), Positions(states, want, a, a + n, k);
    if x < n && states[x] == want {
      var p := InRound(x, a, n);
      PositionsAll(states, want, a, a + n, k, p);
      var j :| 0 <= j < k && s[j] == p;
      assert c[j] == x;
    }
    if x in c {
      var j :| 0 <= j < k && c[j] == x;
      assert Matches(states, want, s[j]);
    }
  }

  /** While the states stay, as many calls as there are matching channels return each of them exactly once. */
  lemma EachOnce(states: seq<int>, want: int, r: int)
    requires |states| > 0 && r >= -1
    ensures var c := Calls(states, want, r, CountIn(states, want, 0, |states|));
      && |c| == CountIn(states, want, 0, |states|)
      && (forall i, j | 0 <= i < j < |c| :: c[i] != c[j])
      && forall x: nat :: x in c <==> x < |states| && states[x] == want
  {
    hide CountIn, Positions, Calls, Matches;
    CallsInRound(states, want, r);
    var k := CountIn(states, want, 0, |states|);
    var c := Calls(states, want, r, k);
    forall i, j | 0 <= i < j < k ensures c[i] != c[j] { NoneTwice(states, want, r, i, j); }
    forall x: nat ensures x in c <==> x < |states| && states[x] == want { NoneMissed(states, want, r, x); }
  }
}
