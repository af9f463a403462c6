/**
 * Opening a TCP connection to one of several addresses (`src/connect.rs`): the
 * order of the addresses and the staggered race over them. Which attempt ends
 * first, and whether the delay passes before it, is left open: every choice is
 * a run of the model.
 */
module AddressRace {
  import opened Common

  /** A socket address: its family and everything else. */
  datatype Addr = Addr(v6: bool, rest: nat)

  // -------------------------------------------------------------------
  // Alternating families
  // -------------------------------------------------------------------

  /** The addresses of one family, in their order. */
  function OfFamily(addrs: seq<Addr>, v6: bool): seq<Addr>
  {
    if addrs == [] then []
    else (if addrs[0].v6 == v6 then [addrs[0]] else []) + OfFamily(addrs[1..], v6)
  }

  lemma {:induction false} OfFamilyAppend(a: seq<Addr>, b: seq<Addr>, v6: bool)
    ensures OfFamily(a + b, v6) == OfFamily(a, v6) + OfFamily(b, v6)
  {
    if a == [] {
      assert a + b == b;
    } else {
      OfFamilyAppend(a[1..], b, v6);
      assert (a + b)[1..] == a[1..] + b && (a + b)[0] == a[0];
      Assoc(if a[0].v6 == v6 then [a[0]] else [], OfFamily(a[1..], v6), OfFamily(b, v6));
    }
  }

  /** A round adds at most one address to each family. */
  lemma {:induction false} FamiliesOfRound(ordered: seq<Addr>, a: seq<Addr>, b: seq<Addr>, v6: bool)
    requires AllOf(a, v6) && AllOf(b, !v6)
    ensures OfFamily(ordered + (a + b), v6) == OfFamily(ordered, v6) + a
    ensures OfFamily(ordered + (a + b), !v6) == OfFamily(ordered, !v6) + b
  {
    hide AllOf, OfFamily;
    OfFamilyAppend(ordered, a + b, v6);
    OfFamilyAppend(ordered, a + b, !v6);
    OfFamilyAppend(a, b, v6);
    OfFamilyAppend(a, b, !v6);
    OfFamilyOfAll(a, v6);
    OfFamilyOfAll(b, !v6);
    assert a + [] == a && [] + b == b;
  }

  /** One more of a list, or all of it again. */
  lemma {:induction false} PrefixMore(s: seq<Addr>, k: nat)
    ensures s[..Min(k + 1, |s|)] == s[..Min(k, |s|)] + (if k < |s| then [s[k]] else [])
  {
  }

  ghost predicate AllOf(addrs: seq<Addr>, v6: bool)
  {
    forall i :: 0 <= i < |addrs| ==> addrs[i].v6 == v6
  }

  lemma {:induction false} OfFamilyOfAll(addrs: seq<Addr>, v6: bool)
    requires AllOf(addrs, v6)
    ensures OfFamily(addrs, v6) == addrs && OfFamily(addrs, !v6) == []
  {
    if addrs != [] { OfFamilyOfAll(addrs[1..], v6); }
  }

  lemma {:induction false} OfFamilyIsAll(addrs: seq<Addr>, v6: bool)
    ensures AllOf(OfFamily(addrs, v6), v6)
  {
    if addrs != [] { OfFamilyIsAll(addrs[1..], v6); }
  }

  /** The families alternate, starting with `v6`, for the first `n` addresses. */
  ghost predicate Alternates(addrs: seq<Addr>, v6: bool, n: nat)
  {
    n <= |addrs| && forall i :: 0 <= i < n ==> addrs[i].v6 == (v6 == (i % 2 == 0))
  }

  /** The two families so far, each a prefix of its list. */
  ghost predicate Merged(ordered: seq<Addr>, primary: seq<Addr>, secondary: seq<Addr>, k: nat, v6: bool)
  {
    && OfFamily(ordered, v6) == primary[..Min(k, |primary|)]
    && OfFamily(ordered, !v6) == secondary[..Min(k, |secondary|)]
    && |ordered| == Min(k, |primary|) + Min(k, |secondary|)
    && Alternates(ordered, v6, 2 * Min(k, Min(|primary|, |secondary|)))
    && (k > 0 && primary != [] ==> ordered != [] && ordered[0] == primary[0])
  }

  /** One round of the loop: the next of each family, where there is one. */
  method TakeRound(ordered: seq<Addr>, primary: seq<Addr>, secondary: seq<Addr>, k: nat, v6: bool)
    returns (more: seq<Addr>)
    requires AllOf(primary, v6) && AllOf(secondary, !v6)
    requires k < |primary| || k < |secondary|
    requires Merged(ordered, primary, secondary, k, v6)
    ensures Merged(more, primary, secondary, k + 1, v6)
  {
    hide AllOf, OfFamily, Alternates;
    var a := if k < |primary| then [primary[k]] else [];
    var b := if k < |secondary| then [secondary[k]] else [];
    more := ordered + (a + b);
    Singles(primary, secondary, a, b, k, v6);
    PrefixMore(primary, k);
    PrefixMore(secondary, k);
    FamiliesOfRound(ordered, a, b, v6);
    AlternatesMore(ordered, a, b, v6, Min(k, Min(|primary|, |secondary|)));
  }

  lemma {:induction false} Singles(primary: seq<Addr>, secondary: seq<Addr>, a: seq<Addr>, b: seq<Addr>, k: nat, v6: bool)
    requires AllOf(primary, v6) && AllOf(secondary, !v6)
    requires a == (if k < |primary| then [primary[k]] else [])
    requires b == (if k < |secondary| then [secondary[k]] else [])
    ensures AllOf(a, v6) && AllOf(b, !v6)
  {
  }

  lemma {:induction false} AlternatesMore(ordered: seq<Addr>, a: seq<Addr>, b: seq<Addr>, v6: bool, n: nat)
    requires Alternates(ordered, v6, 2 * n)
    requires AllOf(a, v6) && AllOf(b, !v6) && |a| <= 1 && |b| <= 1
    ensures Alternates(ordered + (a + b), v6, 2 * n)
    ensures 2 * n == |ordered| && |a| == |b| == 1 ==> Alternates(ordered + (a + b), v6, 2 * (n + 1))
  {
    var more := ordered + (a + b);
    assert forall i :: 0 <= i < |ordered| ==> more[i] == ordered[i];
    if 2 * n == |ordered| && |a| == |b| == 1 {
      assert more[2 * n] == a[0] && more[2 * n + 1] == b[0];
    }
  }

  /** Reorders addresses so the families alternate, the first address's family
   *  first, for as long as both have addresses; within a family the order stays. */
  method InterleaveFamilies(addrs: seq<Addr>) returns (ordered: seq<Addr>)
    ensures forall v6 :: OfFamily(ordered, v6) == OfFamily(addrs, v6)
    ensures addrs == [] ==> ordered == []
    ensures addrs != [] ==>
      var v6 := addrs[0].v6;
      && Alternates(ordered, v6, 2 * Min(|OfFamily(addrs, v6)|, |OfFamily(addrs, !v6)|))
      && ordered != [] && ordered[0] == addrs[0]
  {
    if addrs == [] {
      return [];
    }
    var v6 := addrs[0].v6;
    var primary, secondary := OfFamily(addrs, v6), OfFamily(addrs, !v6);
    OfFamilyIsAll(addrs, v6);
    OfFamilyIsAll(addrs, !v6);
    assert primary[0] == addrs[0];
    ordered := [];
    var k := 0;
    while k < |primary| || k < |secondary|
      invariant 0 <= k <= Max(|primary|, |secondary|)
      invariant Merged(ordered, primary, secondary, k, v6)
      decreases Max(|primary|, |secondary|) - k
    {
      hide OfFamily, AllOf, Merged, Alternates;
      ordered := TakeRound(ordered, primary, secondary, k, v6);
      k := k + 1;
    }
    assert primary[..|primary|] == primary && secondary[..|secondary|] == secondary;
    EveryFamily(ordered, addrs, v6);
  }

  lemma {:induction false} EveryFamily(a: seq<Addr>, b: seq<Addr>, v6: bool)
    requires OfFamily(a, v6) == OfFamily(b, v6) && OfFamily(a, !v6) == OfFamily(b, !v6)
    ensures forall f :: OfFamily(a, f) == OfFamily(b, f)
  {
    forall f ensures OfFamily(a, f) == OfFamily(b, f) {
      assert f == v6 || f == !v6;
    }
  }

  // -------------------------------------------------------------------
  // The preferred address first
  // -------------------------------------------------------------------

  /** Every address from `i` on but the one at `preferred`. */
  function Others(addrs: seq<Addr>, preferred: nat, i: nat): seq<Addr>
    requires i <= |addrs|
    decreases |addrs| - i
  {
    if i == |addrs| then []
    else (if i == preferred then [] else [addrs[i]]) + Others(addrs, preferred, i + 1)
  }

  /** The order of the attempts: the address that last worked, then the others. */
  function PreferredFirst(addrs: seq<Addr>, stored: nat): seq<Addr>
    requires addrs != []
  {
    var preferred := Min(stored, |addrs| - 1);
    [addrs[preferred]] + Others(addrs, preferred, 0)
  }

  lemma {:induction false} OthersAre(addrs: seq<Addr>, preferred: nat, i: nat)
    requires i <= |addrs| && preferred < |addrs|
    ensures Others(addrs, preferred, i)
         == if i <= preferred then addrs[i..preferred] + addrs[preferred + 1..] else addrs[i..]
    decreases |addrs| - i
  {
    if i < |addrs| {
      OthersAre(addrs, preferred, i + 1);
      if i < preferred {
        FromOneOn(addrs, i, preferred);
        Assoc([addrs[i]], addrs[i + 1..preferred], addrs[preferred + 1..]);
      } else if i > preferred {
        FromOneOn(addrs, i, |addrs|);
      } else {
        assert addrs[i..i] == [];
      }
    }
  }

  lemma {:induction false} FromOneOn(addrs: seq<Addr>, i: nat, j: nat)
    requires i < j <= |addrs|
    ensures addrs[i..j] == [addrs[i]] + addrs[i + 1..j]
    ensures addrs[i..] == [addrs[i]] + addrs[i + 1..]
  {
  }

  /** No address is lost or doubled, whatever position was stored: one address
   *  moves to the front and the others keep their order. */
  lemma {:induction false} PreferredFirstMovesOne(addrs: seq<Addr>, stored: nat)
    requires addrs != []
    ensures var order := PreferredFirst(addrs, stored);
            var p := Min(stored, |addrs| - 1);
            && order == [addrs[p]] + (addrs[..p] + addrs[p + 1..])
            && |order| == |addrs| && multiset(order) == multiset(addrs)
  {
    var p := Min(stored, |addrs| - 1);
    OthersAre(addrs, p, 0);
    assert addrs[0..p] == addrs[..p];
    assert addrs == addrs[..p] + [addrs[p]] + addrs[p + 1..];
  }

  // -------------------------------------------------------------------
  // The race
  // -------------------------------------------------------------------

  datatype Error = NoAddress | Refused(code: nat)

  datatype Result = Connected(index: nat) | Failed(error: Error)

  /** The race between two turns of its loop: attempts `0..next` have started,
   *  `pending` of them are open and `failed` lists the others as they ended. */
  datatype Race = Race(next: nat, pending: set<nat>, failed: seq<nat>, delays: nat)

  /** How each attempt ends: `None` when it connects, else its error. */
  type Outcomes = nat -> Option<nat>

  /** The started attempts, each open or failed and not both. */
  ghost predicate Tracked(r: Race, ends: Outcomes)
  {
    && (forall i :: i in r.pending ==> i < r.next)
    && (forall i :: i in r.failed ==> i < r.next && ends(i).Some?)
    && (forall i :: 0 <= i < r.next ==> (i in r.pending <==> i !in r.failed))
    && |r.pending| + |r.failed| == r.next
  }

  /** One attempt starts at the outset, at each failure and at each delay, until
   *  none of the `n` is left to start. */
  ghost predicate Paced(n: nat, r: Race)
  {
    1 <= r.next == Min(n, 1 + |r.failed| + r.delays)
  }

  /** The head of the loop. */
  ghost predicate Racing(n: nat, r: Race, ends: Outcomes)
  {
    Tracked(r, ends) && Paced(n, r) && r.pending != {}
  }

  /** What each turn of the loop lowers. */
  function Left(n: nat, r: Race): int
  {
    2 * (n - r.next) + |r.pending|
  }

  /** Starts the next attempt, if there is one. */
  function StartNext(n: nat, r: Race): Race
  {
    if r.next < n then r.(next := r.next + 1, pending := r.pending + {r.next}) else r
  }

  /** Attempt `i` ended in an error. */
  function AfterFailure(n: nat, r: Race, i: nat): Race
  {
    StartNext(n, r.(pending := r.pending - {i}, failed := r.failed + [i]))
  }

  /** The delay passed. */
  function AfterDelay(n: nat, r: Race): Race
  {
    StartNext(n, r.(delays := r.delays + 1))
  }

  lemma {:induction false} StartTracked(n: nat, r: Race, ends: Outcomes)
    requires Tracked(r, ends)
    ensures Tracked(StartNext(n, r), ends)
    ensures Left(n, StartNext(n, r)) <= Left(n, r)
    ensures r.next < n ==> StartNext(n, r).pending != {} && Left(n, StartNext(n, r)) < Left(n, r)
  {
    if r.next < n {
      var more := StartNext(n, r);
      assert r.next !in r.pending;
      assert |more.pending| == |r.pending| + 1;
      assert r.next in more.pending;
    }
  }

  lemma {:induction false} FailedTracked(r: Race, ends: Outcomes, i: nat)
    requires Tracked(r, ends) && i in r.pending && ends(i).Some?
    ensures Tracked(r.(pending := r.pending - {i}, failed := r.failed + [i]), ends)
  {
    var less := r.(pending := r.pending - {i}, failed := r.failed + [i]);
    assert |less.pending| == |r.pending| - 1;
  }

  /** A failure starts the next attempt at once; without one, the race goes on
   *  while an attempt is open, and ends when every attempt has failed. */
  lemma {:induction false} FailureKeeps(n: nat, r: Race, ends: Outcomes, i: nat)
    requires Racing(n, r, ends) && i in r.pending && ends(i).Some?
    ensures var after := AfterFailure(n, r, i);
            && (after.pending != {} ==> Racing(n, after, ends))
            && 0 <= Left(n, after) < Left(n, r)
            && after.next == Min(n, r.next + 1) && after.failed == r.failed + [i]
            && (after.pending == {} ==> after.next == n == |after.failed|)
            && (after.pending == {} ==> forall j :: 0 <= j < n ==> ends(j).Some? && j in after.failed)
  {
    var less := r.(pending := r.pending - {i}, failed := r.failed + [i]);
    FailedTracked(r, ends, i);
    StartTracked(n, less, ends);
    assert |less.pending| == |r.pending| - 1;
    var after := AfterFailure(n, r, i);
    if after.pending == {} {
      assert after == less;
      assert forall j :: 0 <= j < after.next ==> j in after.failed;
    }
  }

  lemma {:induction false} DelayKeeps(n: nat, r: Race, ends: Outcomes)
    requires Racing(n, r, ends) && r.next < n
    ensures Racing(n, AfterDelay(n, r), ends) && 0 <= Left(n, AfterDelay(n, r)) < Left(n, r)
    ensures AfterDelay(n, r).next == r.next + 1
  {
    StartTracked(n, r.(delays := r.delays + 1), ends);
  }

  /** The staggered race. `started` lists the attempts as they start, `ended` those
   *  that failed as they did, and `turns` counts the turns of the loop. Whatever ends first, the race connects if and
   *  only if some address accepts, to an address it tried; it fails only after
   *  trying all of them, with the last error; and it takes fewer than twice as
   *  many turns as there are addresses. */
  method ConnectTcp(addrs: seq<Addr>, ends: Outcomes)
    returns (result: Result, started: seq<Addr>, ended: seq<nat>, turns: nat)
    ensures addrs == [] ==> result == Failed(NoAddress)
    ensures started <= addrs
    ensures result.Connected? ==> result.index < |started| && ends(result.index) == None
    ensures result.Failed? ==> started == addrs && forall i :: 0 <= i < |addrs| ==> ends(i).Some?
    ensures result.Failed? && addrs != [] ==> LastError(|addrs|, result.error, ended, ends)
    ensures addrs != [] ==> turns < 2 * |addrs|
  {
    if addrs == [] {
      return Failed(NoAddress), [], [], 0;
    }
    var n := |addrs|;
    var race := Race(1, {0}, [], 0);
    started, turns := [addrs[0]], 0;
    var done: Option<Result> := None;
    assert Racing(n, race, ends) && Left(n, race) == 2 * n - 1;
    hide *;
    while done == None
      invariant race.next <= n
      invariant started == addrs[..race.next]
      invariant done == None ==> Racing(n, race, ends)
      invariant done.Some? ==> Settled(addrs, done.value, started, race.failed, ends)
      invariant 0 <= Left(n, race) && turns + Left(n, race) < 2 * n
      decreases Left(n, race)
    {
      turns := turns + 1;
      race, started, done := Turn(addrs, race, started, ends);
    }
    SettledMeans(addrs, done.value, started, race.failed, ends);
    return done.value, started, race.failed, turns;
  }

  /** All `n` attempts failed, each once, and `error` is that of the last to do so. */
  ghost predicate LastError(n: nat, error: Error, ended: seq<nat>, ends: Outcomes)
  {
    && 0 < |ended| == n && (forall i :: 0 <= i < n ==> i in ended)
    && ends(ended[n - 1]).Some? && error == Refused(ends(ended[n - 1]).value)
  }

  /** A result the race may return. */
  ghost predicate Settled(addrs: seq<Addr>, result: Result, started: seq<Addr>, ended: seq<nat>, ends: Outcomes)
  {
    && started <= addrs
    && (result.Connected? ==> result.index < |started| && ends(result.index) == None)
    && (result.Failed? ==>
          && started == addrs && (forall i :: 0 <= i < |addrs| ==> ends(i).Some?)
          && LastError(|addrs|, result.error, ended, ends))
  }

  lemma {:induction false} SettledMeans(
      addrs: seq<Addr>, result: Result, started: seq<Addr>, ended: seq<nat>, ends: Outcomes)
    requires Settled(addrs, result, started, ended, ends)
    ensures started <= addrs
    ensures result.Connected? ==> result.index < |started| && ends(result.index) == None
    ensures result.Failed? ==> started == addrs && forall i :: 0 <= i < |addrs| ==> ends(i).Some?
    ensures result.Failed? ==> LastError(|addrs|, result.error, ended, ends)
  {
  }

  /** One turn of the loop: the delay passes, or an open attempt ends. */
  method Turn(addrs: seq<Addr>, race: Race, started: seq<Addr>, ends: Outcomes)
    returns (after: Race, more: seq<Addr>, done: Option<Result>)
    requires Racing(|addrs|, race, ends) && race.next <= |addrs| && started == addrs[..race.next]
    ensures after.next <= |addrs| && more == addrs[..after.next]
    ensures done == None ==> Racing(|addrs|, after, ends)
    ensures done.Some? ==> Settled(addrs, done.value, more, after.failed, ends)
    ensures 0 <= Left(|addrs|, after) < Left(|addrs|, race)
  {
    hide Racing, Left, AfterDelay, AfterFailure, Settled;
    var n := |addrs|;
    var late: bool := *;
    if late && race.next < n {
      // The delay is armed only while an attempt is left to start.
      DelayKeeps(n, race, ends);
      return AfterDelay(n, race), started + [addrs[race.next]], None;
    }
    var i := AnyPending(n, race, ends);
    var end := ends(i);
    if end == None {
      EndedLess(n, race, ends, i);
      SettledBy(addrs, started, race.failed, ends, i);
      return race.(pending := race.pending - {i}), started, Some(Connected(i));
    }
    FailureKeeps(n, race, ends, i);
    after := AfterFailure(n, race, i);
    more := if race.next < n then started + [addrs[race.next]] else started;
    if after.pending == {} {
      assert more == addrs;
      SettledFailed(addrs, after.failed, ends, i);
      return after, more, Some(Failed(Refused(end.value)));
    }
    return after, more, None;
  }

  lemma {:induction false} EndedLess(n: nat, r: Race, ends: Outcomes, i: nat)
    requires Racing(n, r, ends) && i in r.pending
    ensures 0 <= Left(n, r.(pending := r.pending - {i})) < Left(n, r)
  {
    assert |r.pending - {i}| == |r.pending| - 1;
  }

  lemma {:induction false} SettledBy(addrs: seq<Addr>, started: seq<Addr>, ended: seq<nat>, ends: Outcomes, i: nat)
    requires started <= addrs && i < |started| && ends(i) == None
    ensures Settled(addrs, Connected(i), started, ended, ends)
  {
  }

  lemma {:induction false} SettledFailed(addrs: seq<Addr>, ended: seq<nat>, ends: Outcomes, i: nat)
    requires i < |addrs| == |ended| && ended[|ended| - 1] == i
    requires forall j :: 0 <= j < |addrs| ==> ends(j).Some? && j in ended
    ensures Settled(addrs, Failed(Refused(ends(i).value)), addrs, ended, ends)
  {
  }

  /** The attempt that ends next: any of those open, of which there is one. */
  method AnyPending(n: nat, r: Race, ends: Outcomes) returns (i: nat)
    requires Racing(n, r, ends)
    ensures i in r.pending && i < r.next
  {
    i :| i in r.pending;
  }
}
