/** Machine-width integers, saturating arithmetic and the outcome of a dispatchable
    call, shared by the four pallets. Every dispatchable is modelled as an atomic,
    all-or-nothing transition: when it returns `Fail`, no storage change is visible. */
module Frame {

  const U8_MAX: nat := 0xFF
  const U32_MAX: nat := 0xFFFF_FFFF
  const U64_MAX: nat := 0xFFFF_FFFF_FFFF_FFFF
  const U128_MAX: nat := 0xFFFF_FFFF_FFFF_FFFF_FFFF_FFFF_FFFF_FFFF

  type U8 = x: nat | x <= U8_MAX
  type U32 = x: nat | x <= U32_MAX
  type U64 = x: nat | x <= U64_MAX

  /** The runtime's `Balance` (u128). */
  type Balance = x: nat | x <= U128_MAX

  /** The runtime's `BlockNumber` (u32). */
  type BlockNumber = x: nat | x <= U32_MAX

  type ClubId = U64

  /** An already-authenticated account; only equality between accounts matters. */
  type AccountId = nat

  /** The result of a dispatchable: `Ok(())` or a pallet error. */
  datatype Outcome<E> = Pass | Fail(error: E)

  datatype Result<T, E> = Success(value: T) | Failure(error: E)

  datatype Option<T> = None | Some(value: T) {
    function GetOr(default: T): T {
      match this
      case Some(v) => v
      case None => default
    }
  }

  /** `a.saturating_add(b)` on an unsigned type whose largest value is `max`:
      the exact sum when it fits, the largest value otherwise. */
  function SaturatingAdd(a: nat, b: nat, max: nat): (r: nat)
    requires a <= max && b <= max
    ensures r <= max
    ensures a + b <= max ==> r == a + b
    ensures max < a + b ==> r == max
    ensures a <= r && b <= r
  {
    if a + b <= max then a + b else max
  }

  /** `a.saturating_sub(b)` on an unsigned type: the exact difference, or zero. */
  function SaturatingSub(a: nat, b: nat): (r: nat)
    ensures r <= a
    ensures b <= a ==> r + b == a
    ensures a < b ==> r == 0
  {
    if b <= a then a - b else 0
  }

  function Min(a: nat, b: nat): nat {
    if a <= b then a else b
  }

  predicate NoDuplicates<T(==)>(s: seq<T>) {
    forall i, j :: 0 <= i < j < |s| ==> s[i] != s[j]
  }

  lemma AppendKeepsNoDuplicates<T>(s: seq<T>, x: T)
    requires NoDuplicates(s) && x !in s
    ensures NoDuplicates(s + [x])
  {
    forall i, j | 0 <= i < j < |s| + 1
      ensures (s + [x])[i] != (s + [x])[j]
    {
      if j < |s| {
        assert (s + [x])[i] == s[i] && (s + [x])[j] == s[j];
      }
    }
  }

  /** A per-club `ValueQuery` counter: the stored value, 0 when the key is absent. */
  function CountOf(counts: map<ClubId, U64>, club: ClubId): U64 {
    if club in counts then counts[club] else 0
  }

  /** Saturating accumulation keeps a running total equal to the clamped exact sum:
      adding `w` with saturation to min(s, max) gives min(s + w, max). */
  lemma ClampedAccumulation(s: nat, w: nat, max: nat)
    requires w <= max
    ensures SaturatingAdd(Min(s, max), w, max) == Min(s + w, max)
  {}

  /** An id taken from a per-club counter that starts at 0 and is bumped with
      `saturating_add(1)`: either below the counter, or the counter is stuck at
      `u64::MAX`, which is then handed out again. */
  predicate IssuedId(id: U64, counter: U64) {
    id < counter || counter == U64_MAX
  }
}
