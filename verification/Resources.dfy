/** Negotiated byte ceilings: what is reserved for one feature is never handed to another. */
module Resources {
  import opened Bytes

  const KINDS: nat := 5

  datatype Budget = Budget(reserved: nat, maximum: nat)

  function Sum(s: seq<nat>): nat {
    if s == [] then 0 else Sum(s[..|s| - 1]) + s[|s| - 1]
  }

  function Max(a: nat, b: nat): nat { if a < b then b else a }

  /** What a kind holds or may still claim. */
  function Claims(budgets: seq<Budget>, used: seq<nat>): (r: seq<nat>)
    requires |budgets| == |used|
    ensures |r| == |used|
  {
    seq(|used|, i requires 0 <= i < |used| => Max(used[i], budgets[i].reserved))
  }

  /** The part of the reservations of the kinds other than `kind` that is not in use. */
  function Guarded(budgets: seq<Budget>, used: seq<nat>, kind: nat): (r: seq<nat>)
    requires |budgets| == |used|
    ensures |r| == |used|
  {
    seq(|used|, i requires 0 <= i < |used| =>
      if i != kind && budgets[i].reserved > used[i] then budgets[i].reserved - used[i] else 0)
  }

  /** Every reservation can still be met in full, and no ceiling is passed. */
  ghost predicate Honoured(total: nat, budgets: seq<Budget>, used: seq<nat>)
    requires |budgets| == |used|
  {
    && Sum(Claims(budgets, used)) <= total
    && forall i :: 0 <= i < |used| ==> used[i] <= budgets[i].maximum
  }

  /** The size of the request and of what it must leave alone, before any wrap-around. */
  function Demand(budgets: seq<Budget>, used: seq<nat>, kind: nat, bytes: nat): nat
    requires |budgets| == |used|
  {
    Sum(used) + Sum(Guarded(budgets, used, kind)) + bytes
  }

  /** When `reserve` accepts, in the 32-bit arithmetic of the source. */
  predicate Admits(total: nat, budgets: seq<Budget>, used: seq<nat>, kind: nat, bytes: nat)
    requires |budgets| == |used| && kind < |used|
  {
    && bytes != 0
    && (used[kind] + bytes) % TWO_32 <= budgets[kind].maximum
    && Demand(budgets, used, kind, bytes) % TWO_32 <= total
  }

  lemma {:induction false} SumUpdate(s: seq<nat>, i: nat, x: nat)
    requires i < |s|
    ensures Sum(s[i := x]) == Sum(s) - s[i] + x
  {
    var n := |s| - 1;
    if i == n {
      assert s[i := x][..n] == s[..n];
    } else {
      assert s[i := x][..n] == s[..n][i := x];
      SumUpdate(s[..n], i, x);
    }
  }

  lemma {:induction false} SumAtLeast(s: seq<nat>, i: nat)
    requires i < |s|
    ensures s[i] <= Sum(s)
  {
    if i < |s| - 1 {
      SumAtLeast(s[..|s| - 1], i);
    }
  }

  /** What is in use and what is guarded add up to the claims, but for the kind itself. */
  lemma {:induction false} ClaimsSplit(budgets: seq<Budget>, used: seq<nat>, kind: nat)
    requires |budgets| == |used| && kind < |used|
    ensures Sum(used) + Sum(Guarded(budgets, used, kind)) + Max(used[kind], budgets[kind].reserved)
            == Sum(Claims(budgets, used)) + used[kind]
  {
    var n := |used| - 1;
    assert Claims(budgets, used)[..n] == Claims(budgets[..n], used[..n]);
    assert Guarded(budgets, used, kind)[..n] == Guarded(budgets[..n], used[..n], kind);
    if kind == n {
      ClaimsApart(budgets[..n], used[..n], kind);
    } else {
      ClaimsSplit(budgets[..n], used[..n], kind);
    }
  }

  lemma {:induction false} ClaimsApart(budgets: seq<Budget>, used: seq<nat>, kind: nat)
    requires |budgets| == |used| <= kind
    ensures Sum(used) + Sum(Guarded(budgets, used, kind)) == Sum(Claims(budgets, used))
  {
    if used != [] {
      var n := |used| - 1;
      assert Claims(budgets, used)[..n] == Claims(budgets[..n], used[..n]);
      assert Guarded(budgets, used, kind)[..n] == Guarded(budgets[..n], used[..n], kind);
      ClaimsApart(budgets[..n], used[..n], kind);
    }
  }

  /** A request within a kind's own reservation and ceiling is always met. */
  lemma OwnReservationMet(total: nat, budgets: seq<Budget>, used: seq<nat>, kind: nat, bytes: nat)
    requires |budgets| == |used| && kind < |used| && total < TWO_32 && Honoured(total, budgets, used)
    requires 0 < bytes && used[kind] + bytes <= budgets[kind].reserved && used[kind] + bytes <= budgets[kind].maximum
    ensures Admits(total, budgets, used, kind, bytes)
  {
    ClaimsSplit(budgets, used, kind);
    SumAtLeast(Claims(budgets, used), kind);
  }

  /** An accepted request leaves every reservation intact exactly when its demand does not wrap. */
  lemma AdmittedHonouredIff(total: nat, budgets: seq<Budget>, used: seq<nat>, kind: nat, bytes: nat)
    requires |budgets| == |used| && kind < |used| && total < TWO_32 && Honoured(total, budgets, used)
    requires bytes < TWO_32 && Admits(total, budgets, used, kind, bytes)
    ensures var after := used[kind := (used[kind] + bytes) % TWO_32];
            (Honoured(total, budgets, after) && after[kind] == used[kind] + bytes)
            <==> Demand(budgets, used, kind, bytes) < TWO_32
  {
    hide Sum, Claims, Guarded;
    var after := used[kind := (used[kind] + bytes) % TWO_32];
    ClaimsSplit(budgets, used, kind);
    SumAtLeast(used, kind);
    ClaimsUpdate(budgets, used, kind, after[kind]);
  }

  /** Of 100 bytes, all reserved for the second kind, the first one is given nearly 2^32. */
  lemma WrappedWitness()
    ensures var budgets := [Budget(0, TWO_32 - 1), Budget(100, 100), Budget(0, 0), Budget(0, 0), Budget(0, 0)];
            var used := [0, 0, 0, 0, 0];
            && Honoured(100, budgets, used) && Admits(100, budgets, used, 0, TWO_32 - 60)
            && !Honoured(100, budgets, used[0 := TWO_32 - 60])
  {
    var budgets := [Budget(0, TWO_32 - 1), Budget(100, 100), Budget(0, 0), Budget(0, 0), Budget(0, 0)];
    var used := [0, 0, 0, 0, 0];
    SumOfFive(0, 100, 0, 0, 0);
    SumOfFive(0, 0, 0, 0, 0);
    assert Claims(budgets, used) == [0, 100, 0, 0, 0] == Guarded(budgets, used, 0);
    AdmittedHonouredIff(100, budgets, used, 0, TWO_32 - 60);
  }

  lemma SumOfFive(a: nat, b: nat, c: nat, d: nat, e: nat)
    ensures Sum([a, b, c, d, e]) == a + b + c + d + e
  {
    assert [a, b, c, d, e][..4] == [a, b, c, d] && [a, b, c, d][..3] == [a, b, c];
    assert [a, b, c][..2] == [a, b] && [a, b][..1] == [a];
    assert Sum([a]) == a by {
      assert [a][..0] == [];
    }
    assert Sum([a, b]) == a + b;
    assert Sum([a, b, c, d]) == a + b + c + d;
  }

  lemma ClaimsUpdate(budgets: seq<Budget>, used: seq<nat>, kind: nat, amount: nat)
    requires |budgets| == |used| && kind < |used|
    ensures Sum(Claims(budgets, used[kind := amount]))
            == Sum(Claims(budgets, used)) - Max(used[kind], budgets[kind].reserved) + Max(amount, budgets[kind].reserved)
  {
    assert Claims(budgets, used[kind := amount])
        == Claims(budgets, used)[kind := Max(amount, budgets[kind].reserved)];
    SumUpdate(Claims(budgets, used), kind, Max(amount, budgets[kind].reserved));
  }

  lemma ReleaseHonoured(total: nat, budgets: seq<Budget>, used: seq<nat>, kind: nat, amount: nat)
    requires |budgets| == |used| && kind < |used| && Honoured(total, budgets, used) && amount <= used[kind]
    ensures Honoured(total, budgets, used[kind := amount])
  {
    ClaimsUpdate(budgets, used, kind, amount);
  }

  class ResourceManager {
    var totalBytes: nat
    const budgets: array<Budget>
    const used: array<nat>
    const highWater: array<nat>
    const reclaimed: array<nat>

    predicate Shape()
      reads this
    {
      && budgets.Length == KINDS && used.Length == KINDS && highWater.Length == KINDS && reclaimed.Length == KINDS
      && used != highWater && used != reclaimed && highWater != reclaimed && totalBytes < TWO_32
    }

    ghost predicate Valid()
      reads this, budgets, used, highWater, reclaimed
    {
      && Shape()
      && Honoured(totalBytes, budgets[..], used[..])
      && forall i :: 0 <= i < KINDS ==> used[i] <= highWater[i]
    }

    constructor ()
      ensures Valid() && fresh(budgets) && fresh(used) && fresh(highWater) && fresh(reclaimed)
      ensures totalBytes == 0 && used[..] == Zeroed(KINDS)
      ensures forall i :: 0 <= i < KINDS ==> budgets[i] == Budget(0, 0)
    {
      totalBytes := 0;
      budgets := new Budget[KINDS](_ => Budget(0, 0));
      used := new nat[KINDS](_ => 0);
      highWater := new nat[KINDS](_ => 0);
      reclaimed := new nat[KINDS](_ => 0);
      new;
      assert used[..] == Zeroed(KINDS);
      SumOfReserved(budgets[..]);
      SumZeroed(Reserved(budgets[..]));
    }

    /** Starts over with the given budgets; kinds without one get nothing. */
    method Configure(total: nat, given: seq<Budget>)
      requires Shape() && total < TWO_32
      modifies this`totalBytes, budgets, used, highWater, reclaimed
      ensures Shape() && totalBytes == total && used[..] == Zeroed(KINDS)
      ensures forall i :: 0 <= i < KINDS ==> highWater[i] == reclaimed[i] == 0
      ensures forall i :: 0 <= i < KINDS ==> budgets[i] == if i < |given| then given[i] else Budget(0, 0)
      ensures Sum(Reserved(budgets[..])) <= total ==> Valid()
    {
      totalBytes := total;
      for i := 0 to KINDS
        invariant Shape() && totalBytes == total
        invariant forall j :: 0 <= j < i ==> budgets[j] == Budget(0, 0) && used[j] == highWater[j] == reclaimed[j] == 0
      {
        budgets[i] := Budget(0, 0);
        used[i], highWater[i], reclaimed[i] := 0, 0, 0;
      }
      var i := 0;
      while i < |given| && i < KINDS
        invariant Shape() && totalBytes == total && 0 <= i <= KINDS && i <= |given|
        invariant forall j :: 0 <= j < KINDS ==> used[j] == highWater[j] == reclaimed[j] == 0
        invariant forall j :: 0 <= j < KINDS ==> budgets[j] == if j < i then given[j] else Budget(0, 0)
        modifies budgets
      {
        budgets[i] := given[i];
        i := i + 1;
      }
      assert used[..] == Zeroed(KINDS);
      SumOfReserved(budgets[..]);
    }

    method TotalUsed() returns (total: nat)
      requires Shape()
      ensures total == Sum(used[..]) % TWO_32
    {
      total := 0;
      for i := 0 to KINDS
        invariant total == Sum(used[..i]) % TWO_32
        modifies {}
      {
        assert used[..i + 1][..i] == used[..i];
        total := (total + used[i]) % TWO_32;
      }
      assert used[..KINDS] == used[..];
    }

    /** What the other kinds are still owed. */
    method ProtectedBytes(kind: nat) returns (bytes: nat)
      requires Shape() && kind < KINDS
      ensures bytes == Sum(Guarded(budgets[..], used[..], kind)) % TWO_32
    {
      bytes := 0;
      ghost var guarded := Guarded(budgets[..], used[..], kind);
      for i := 0 to KINDS
        invariant bytes == Sum(guarded[..i]) % TWO_32
        modifies {}
      {
        assert guarded[..i + 1][..i] == guarded[..i];
        if i != kind && budgets[i].reserved > used[i] {
          bytes := (bytes + (budgets[i].reserved - used[i])) % TWO_32;
        }
      }
      assert guarded[..KINDS] == guarded;
    }

    /** Takes `bytes` for a kind if its ceiling and the reservations of the others allow it. */
    method Reserve(kind: nat, bytes: nat) returns (ok: bool)
      requires Shape() && kind < KINDS && bytes < TWO_32
      modifies used, highWater
      ensures Shape()
      ensures ok <==> Admits(totalBytes, budgets[..], old(used[..]), kind, bytes)
      ensures used[..] == if ok then old(used[..])[kind := (old(used[kind]) + bytes) % TWO_32] else old(used[..])
      ensures old(Valid()) && Demand(budgets[..], old(used[..]), kind, bytes) < TWO_32 ==>
                Valid() && (ok ==> used[kind] == old(used[kind]) + bytes)
      ensures !ok ==> highWater[..] == old(highWater[..])
    {
      hide Honoured, Demand, Claims, Guarded, Sum;
      if bytes == 0 || (used[kind] + bytes) % TWO_32 > budgets[kind].maximum {
        return false;
      }
      var protectedBytes := ProtectedBytes(kind);
      var total := TotalUsed();
      DemandWraps(budgets[..], used[..], kind, bytes);
      if ((total + protectedBytes) % TWO_32 + bytes) % TWO_32 > totalBytes {
        return false;
      }
      if Demand(budgets[..], used[..], kind, bytes) < TWO_32 && Honoured(totalBytes, budgets[..], used[..]) {
        AdmittedHonouredIff(totalBytes, budgets[..], used[..], kind, bytes);
      }
      used[kind] := (used[kind] + bytes) % TWO_32;
      if used[kind] > highWater[kind] {
        highWater[kind] := used[kind];
      }
      ok := true;
    }

    static lemma DemandWraps(budgets: seq<Budget>, used: seq<nat>, kind: nat, bytes: nat)
      requires |budgets| == |used|
      ensures ((Sum(used) % TWO_32 + Sum(Guarded(budgets, used, kind)) % TWO_32) % TWO_32 + bytes) % TWO_32
              == Demand(budgets, used, kind, bytes) % TWO_32
    {
      hide *;
      DemandParts(budgets, used, kind, bytes);
      WrapThree(Sum(used), Sum(Guarded(budgets, used, kind)), bytes, Demand(budgets, used, kind, bytes));
    }

    static lemma DemandParts(budgets: seq<Budget>, used: seq<nat>, kind: nat, bytes: nat)
      requires |budgets| == |used|
      ensures Demand(budgets, used, kind, bytes) == Sum(used) + Sum(Guarded(budgets, used, kind)) + bytes
    {
      hide Sum, Guarded;
    }

    static lemma WrapThree(a: nat, b: nat, c: nat, d: nat)
      requires d == a + b + c
      ensures ((a % TWO_32 + b % TWO_32) % TWO_32 + c) % TWO_32 == d % TWO_32
    {
      var m := b % TWO_32;
      Wrap(a, m);
      assert (a % TWO_32 + m) % TWO_32 == (a + m) % TWO_32;
      Wrap(b, a);
      assert (m + a) % TWO_32 == (b + a) % TWO_32;
      Wrap(a + b, c);
    }

    static lemma Wrap(a: nat, b: nat)
      ensures (a % TWO_32 + b) % TWO_32 == (a + b) % TWO_32
    {}

    /** Gives back at most what the kind holds. */
    method Release(kind: nat, bytes: nat, reclaim: bool)
      requires Shape() && kind < KINDS
      modifies used, reclaimed
      ensures Shape() && (old(Valid()) ==> Valid())
      ensures used[..] == old(used[..])[kind := if bytes > old(used[kind]) then 0 else old(used[kind]) - bytes]
      ensures reclaimed[..] == if reclaim
                               then old(reclaimed[..])[kind := (old(reclaimed[kind]) + old(used[kind]) - used[kind]) % TWO_32]
                               else old(reclaimed[..])
    {
      hide Honoured;
      var released := if bytes > used[kind] then used[kind] else bytes;
      if Honoured(totalBytes, budgets[..], used[..]) {
        ReleaseHonoured(totalBytes, budgets[..], used[..], kind, used[kind] - released);
      }
      used[kind] := used[kind] - released;
      if reclaim {
        reclaimed[kind] := (reclaimed[kind] + released) % TWO_32;
      }
    }
  }

  function Zeroed(n: nat): (r: seq<nat>)
    ensures |r| == n
  {
    seq(n, _ => 0)
  }

  function Reserved(budgets: seq<Budget>): (r: seq<nat>)
    ensures |r| == |budgets|
  {
    seq(|budgets|, i requires 0 <= i < |budgets| => budgets[i].reserved)
  }

  lemma SumOfReserved(budgets: seq<Budget>)
    ensures Claims(budgets, Zeroed(|budgets|)) == Reserved(budgets)
  {}

  lemma {:induction false} SumZeroed(s: seq<nat>)
    requires forall i :: 0 <= i < |s| ==> s[i] == 0
    ensures Sum(s) == 0
  {
    if s != [] {
      SumZeroed(s[..|s| - 1]);
    }
  }

  /** A request or a release. */
  datatype Operation = Take(kind: nat, bytes: nat) | Give(kind: nat, bytes: nat)

  /** A request that is granted although its demand does not fit 32 bits. */
  predicate Wraps(manager: ResourceManager, operation: Operation)
    reads manager, manager.budgets, manager.used
    requires manager.Shape() && operation.kind < KINDS
  {
    && operation.Take?
    && Admits(manager.totalBytes, manager.budgets[..], manager.used[..], operation.kind, operation.bytes)
    && Demand(manager.budgets[..], manager.used[..], operation.kind, operation.bytes) >= TWO_32
  }

  /**
   From budgets that fit, all reservations are kept up to the first request that is
   granted although its demand wraps. There is none while no request reaches beyond
   32 bits together with the total.
   */
  method Run(manager: ResourceManager, operations: seq<Operation>) returns (performed: nat)
    requires manager.Valid()
    requires forall i :: 0 <= i < |operations| ==> operations[i].kind < KINDS && operations[i].bytes < TWO_32
    modifies manager.used, manager.highWater, manager.reclaimed
    ensures manager.Valid() && performed <= |operations|
    ensures performed < |operations| ==>
              && Wraps(manager, operations[performed])
              && manager.totalBytes + operations[performed].bytes >= TWO_32
  {
    hide Honoured, Demand, Admits;
    for i := 0 to |operations|
      invariant manager.Valid()
    {
      if Wraps(manager, operations[i]) {
        if manager.totalBytes + operations[i].bytes < TWO_32 {
          SmallDemand(manager.totalBytes, manager.budgets[..], manager.used[..], operations[i].kind, operations[i].bytes);
        }
        return i;
      }
      match operations[i]
      case Take(kind, bytes) => var ok := manager.Reserve(kind, bytes);
      case Give(kind, bytes) => manager.Release(kind, bytes, false);
    }
    performed := |operations|;
  }

  lemma SmallDemand(total: nat, budgets: seq<Budget>, used: seq<nat>, kind: nat, bytes: nat)
    requires |budgets| == |used| && kind < |used| && Honoured(total, budgets, used) && total + bytes < TWO_32
    ensures Demand(budgets, used, kind, bytes) < TWO_32
  {
    ClaimsSplit(budgets, used, kind);
  }
}
