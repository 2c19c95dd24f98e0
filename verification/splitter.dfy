/**
 The splitter: validates a cable and a split count, cuts the cable into
 `times + 1` equal pieces, hands out the remainder as further trailing
 pieces, and names every piece after its position.

 `Split` is the functional statement of the whole operation; the module
 SplitterLoop follows the source's loops step by step.
 */
module Splitter {
  import opened Cables
  import opened Text

  const MinTimes: int := 1
  const MaxTimes: int := 64
  const MaxLength: int := 1024
  /** Splits that produce at most this many pieces get unpadded names. */
  const UnpaddedLimit: int := 10

  /** The three ways a split is refused. */
  datatype SplitError =
    | BadCount                 // the split count is outside 1..64
    | BadLength(length: int)   // the cable length is outside the bound its name selects
    | Unsplittable             // the equal share would be shorter than 1

  datatype Result<+T> = Success(value: T) | Failure(error: SplitError)

  datatype Check = Valid | Invalid(error: SplitError)

  /**
   A name containing a dash marks a cable that came out of an earlier split;
   such a cable may be as short as 1, any other must be at least 2 long.
   */
  function MinLength(name: string): (m: int)
    ensures m == 1 || m == 2
  {
    if ContainsDash(name) then 1 else 2
  }

  /** The validation step: split count first, then the name-dependent length bound. */
  function Validate(cable: Cable, times: int): (v: Check)
    ensures v == Invalid(BadCount) <==> !(MinTimes <= times <= MaxTimes)
    ensures v == Valid <==>
              MinTimes <= times <= MaxTimes && MinLength(cable.name) <= cable.length <= MaxLength
    ensures v.Invalid? ==> v.error == BadCount || v.error == BadLength(cable.length)
  {
    if !(MinTimes <= times <= MaxTimes) then Invalid(BadCount)
    else if !ContainsDash(cable.name) && !(2 <= cable.length <= MaxLength) then Invalid(BadLength(cable.length))
    else if ContainsDash(cable.name) && !(1 <= cable.length <= MaxLength) then Invalid(BadLength(cable.length))
    else Valid
  }

  /**
   The pieces the remainder loop appends, given what is left to hand out and
   the equal share: full shares while they fit, then one shorter final piece.
   */
  function RemainderPieces(remainder: int, share: int): (ps: seq<int>)
    requires 0 <= remainder && 1 <= share
    ensures Sum(ps) == remainder
    ensures |ps| <= remainder
    ensures forall i :: 0 <= i < |ps| ==> 1 <= ps[i] <= share
    ensures forall i :: 0 <= i < |ps| - 1 ==> ps[i] == share
    decreases remainder
  {
    if remainder == 0 then []
    else if remainder >= share then
      var rest := RemainderPieces(remainder - share, share);
      SumAppend([share], rest);
      assert Sum([share]) == share;
      [share] + rest
    else
      assert Sum([remainder]) == Sum([]) + remainder;
      [remainder]
  }

  /** The equal share is at least 1 exactly when the cable is at least `times + 1` long. */
  lemma ShareAtLeastOne(length: int, times: nat)
    ensures length / (times + 1) >= 1 <==> length >= times + 1
  {
    var q, d := length / (times + 1), times + 1;
    assert length == d * q + length % d;
    if q >= 1 {
      assert d * q >= d;
    } else {
      assert d * q <= 0;
    }
  }

  /** Dividing a natural number by a positive one: a natural quotient and a remainder below the divisor. */
  lemma DivisionOfNat(n: int, d: int)
    requires 0 <= n && 1 <= d
    ensures 0 <= n / d && 0 <= n % d < d && n == d * (n / d) + n % d
  {
  }

  lemma MulAtLeast(d: int, k: int)
    requires 1 <= d && 1 <= k
    ensures d * k >= d
  {
    assert d * k == d + d * (k - 1);
  }

  /** Two ways of writing `n` as `d * q + r` with `0 <= r < d` agree: they are Dafny's `n / d` and `n % d`. */
  lemma DivUnique(n: int, d: int, q: int, r: int)
    requires 1 <= d && 0 <= r < d && n == d * q + r
    ensures q == n / d && r == n % d
  {
    var q', r' := n / d, n % d;
    assert d * (q - q') == r' - r;
    if q > q' {
      MulAtLeast(d, q - q');
    } else if q < q' {
      MulAtLeast(d, q' - q);
    }
  }

  /**
   Python's `n // d` for a positive divisor, by repeatedly taking `d` from
   `n` (or adding it back while `n` is negative): the floor of `n / d`.
   */
  function FloorDiv(n: int, d: int): int
    requires 1 <= d
    decreases if n < 0 then d - n else n
  {
    if n < 0 then FloorDiv(n + d, d) - 1
    else if n < d then 0
    else FloorDiv(n - d, d) + 1
  }

  /** Python's `n % d` for a positive divisor: what is left after the same steps. */
  function FloorMod(n: int, d: int): (r: int)
    requires 1 <= d
    ensures 0 <= r < d
    decreases if n < 0 then d - n else n
  {
    if n < 0 then FloorMod(n + d, d)
    else if n < d then n
    else FloorMod(n - d, d)
  }

  /** Quotient and remainder put `n` back together. */
  lemma {:induction false} FloorDivModRecombine(n: int, d: int)
    requires 1 <= d
    ensures n == d * FloorDiv(n, d) + FloorMod(n, d)
    decreases if n < 0 then d - n else n
  {
    if n < 0 {
      FloorDivModRecombine(n + d, d);
      assert d * FloorDiv(n, d) == d * FloorDiv(n + d, d) - d;
    } else if n >= d {
      FloorDivModRecombine(n - d, d);
      assert d * FloorDiv(n, d) == d * FloorDiv(n - d, d) + d;
    }
  }

  /**
   With a positive divisor Python's floor division and modulo coincide with
   Dafny's Euclidean `/` and `%`.
   */
  lemma FloorDivModIsEuclidean(n: int, d: int)
    requires 1 <= d
    ensures FloorDiv(n, d) == n / d && FloorMod(n, d) == n % d
  {
    FloorDivModRecombine(n, d);
    DivUnique(n, d, FloorDiv(n, d), FloorMod(n, d));
  }

  /** Lengths of all pieces before naming: the equal shares, then the remainder pieces. */
  function PieceLengths(length: int, times: nat): seq<int>
    requires times + 1 <= length
  {
    FloorDivModIsEuclidean(length, times + 1);
    ShareAtLeastOne(length, times);
    var share := FloorDiv(length, times + 1);
    seq(times + 1, _ => share) + RemainderPieces(FloorMod(length, times + 1), share)
  }

  /** The piece lengths with Python's division written as Dafny's. */
  lemma PieceLengthsByDivision(length: int, times: nat)
    requires times + 1 <= length
    ensures var share := length / (times + 1);
            PieceLengths(length, times)
            == seq(times + 1, _ => share) + RemainderPieces(length % (times + 1), share)
  {
    FloorDivModIsEuclidean(length, times + 1);
  }

  /** The name a piece is first given: the cable's whole name, a dash, the index zero-filled to two digits. */
  function PaddedName(name: string, i: nat): string {
    name + [Dash] + Padded(i)
  }

  /** Pieces with the given lengths and their first, zero-padded names. */
  function Prelim(ls: seq<int>, name: string): (cs: seq<Cable>)
    ensures |cs| == |ls|
  {
    seq(|ls|, i requires 0 <= i < |ls| => Cable(ls[i], PaddedName(name, i)))
  }

  /**
   The renaming pass: when there are at most ten pieces every name is cut at
   its first dash and given the piece's unpadded position; otherwise the
   pieces are returned as they are.
   */
  function Rename(pieces: seq<Cable>): (rs: seq<Cable>)
    ensures Lengths(rs) == Lengths(pieces)
  {
    if |pieces| <= UnpaddedLimit then
      seq(|pieces|, i requires 0 <= i < |pieces| =>
            Cable(pieces[i].length, PrefixBeforeDash(pieces[i].name) + [Dash] + Decimal(i)))
    else pieces
  }

  /** The whole split, as a function of the cable and the split count. */
  function Split(cable: Cable, times: int): Result<seq<Cable>> {
    match Validate(cable, times)
    case Invalid(e) => Failure(e)
    case Valid =>
      FloorDivModIsEuclidean(cable.length, times + 1);
      ShareAtLeastOne(cable.length, times);
      var share := FloorDiv(cable.length, times + 1);
      if share < 1 then Failure(Unsplittable)
      else Success(Rename(Prelim(PieceLengths(cable.length, times), cable.name)))
  }
}
