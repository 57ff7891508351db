/** The prime field of the Cairo programs; addresses, registers and cells are all felts. */
module Field {

  // The "prime" entry of both compiled programs.
  const P := 0x800000000000011000000000000000000000000000000000000000000000001

  type Felt = x: int | 0 <= x < P

  function Reduce(x: int): Felt {
    x % P
  }

  function Add(x: Felt, y: Felt): Felt {
    Reduce(x + y)
  }

  function Mul(x: Felt, y: Felt): Felt {
    Reduce(x * y)
  }

  lemma ReduceSmall(x: int)
    requires 0 <= x < P
    ensures Reduce(x) == x
  {
  }

  // A word that is k below the prime steps k backwards.
  lemma AddBackwards(x: Felt, word: Felt, k: int)
    requires word + k == P && 0 < k <= x
    ensures Add(x, word) == x - k
  {
  }

  lemma ReduceAbsorbs(x: int, k: int)
    ensures Reduce(x + k * P) == Reduce(x)
  {
    var q, r := x / P, x % P;
    assert x + k * P == (q + k) * P + r;
    QuotientUnique(x + k * P, q + k, r);
  }

  lemma QuotientUnique(x: int, q: int, r: int)
    requires x == q * P + r && 0 <= r < P
    ensures x / P == q && x % P == r
  {
    var q', r' := x / P, x % P;
    assert (q - q') * P == r' - r;
    assert -P < (q - q') * P < P;
  }

  // Reducing a factor first changes a product by a multiple of P only.
  lemma SplitProduct(x: int, y: int) returns (k: int)
    ensures x * y == x * Reduce(y) + k * P
  {
    k := x * (y / P);
  }
}
