/** Machine-level values the client code works with: C integer widths and the
    conversions between them, bytes, optional answers, and the way a PHP array
    is filled by successive keyed insertions. */
module Base {

  datatype Option<T> = None | Some(value: T)

  /** An unsigned char of a message payload. */
  newtype byte = x: int | 0 <= x < 0x100

  const INT32_MIN: int := -0x8000_0000
  const INT32_MAX: int := 0x7fff_ffff
  const INT64_MIN: int := -0x8000_0000_0000_0000
  const INT64_MAX: int := 0x7fff_ffff_ffff_ffff

  predicate IsInt32(x: int) { INT32_MIN <= x <= INT32_MAX }

  predicate IsInt64(x: int) { INT64_MIN <= x <= INT64_MAX }

  /** C's `(int)` cast of a wider integer on a two's-complement target: the low
      32 bits, read as a signed value. */
  function ToInt32(x: int): (r: int)
    ensures IsInt32(r)
    ensures (x - r) % 0x1_0000_0000 == 0
    ensures IsInt32(x) ==> r == x
  {
    var low := x % 0x1_0000_0000;
    if low > INT32_MAX then low - 0x1_0000_0000 else low
  }

  /** The array a sequence of `$array[key] = value` insertions leaves behind,
      starting from an empty array: a later pair overwrites an earlier one. */
  function Assoc<K, V>(pairs: seq<(K, V)>): (r: map<K, V>)
    ensures forall k :: k in r ==> exists i :: 0 <= i < |pairs| && pairs[i] == (k, r[k])
  {
    if pairs == [] then map[]
    else Assoc(pairs[..|pairs| - 1])[pairs[|pairs| - 1].0 := pairs[|pairs| - 1].1]
  }

  /** A key is present exactly when some pair names it, and it holds the value
      of the last pair that names it. */
  lemma {:induction false} AssocLastWins<K, V>(pairs: seq<(K, V)>, k: K, i: int)
    requires 0 <= i < |pairs| && pairs[i].0 == k
    requires forall j :: i < j < |pairs| ==> pairs[j].0 != k
    ensures k in Assoc(pairs) && Assoc(pairs)[k] == pairs[i].1
  {
    if i < |pairs| - 1 {
      var front := pairs[..|pairs| - 1];
      AssocLastWins(front, k, i);
    }
  }

  /** No key appears that no pair names. */
  lemma {:induction false} AssocKeys<K, V>(pairs: seq<(K, V)>, k: K)
    ensures k in Assoc(pairs) <==> exists i :: 0 <= i < |pairs| && pairs[i].0 == k
  {
    if pairs != [] {
      var front := pairs[..|pairs| - 1];
      AssocKeys(front, k);
      if k in Assoc(front) {
        var i :| 0 <= i < |front| && front[i].0 == k;
        assert pairs[i].0 == k;
      }
      if exists i :: 0 <= i < |pairs| && pairs[i].0 == k {
        var i :| 0 <= i < |pairs| && pairs[i].0 == k;
        if i < |front| {
          assert front[i].0 == k;
        }
      }
    }
  }
}
