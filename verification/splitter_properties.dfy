/**
 What a split promises its caller: which error it raises and when, that the
 pieces add up to the original cable, how long each piece is, how many there
 are, and how they are named.
 */
module SplitterProperties {
  import opened Cables
  import opened Text
  import opened Splitter

  /** The cable length lies within the bound its name selects. */
  predicate LengthInBounds(cable: Cable) {
    MinLength(cable.name) <= cable.length <= MaxLength
  }

  /** The equal share of a cable split `times` times. */
  function Share(cable: Cable, times: nat): int {
    cable.length / (times + 1)
  }

  /** What a successful split is built from, read off `Split`. */
  lemma SplitUnfold(cable: Cable, times: int)
    requires Split(cable, times).Success?
    ensures MinTimes <= times <= MaxTimes && LengthInBounds(cable) && times + 1 <= cable.length
    ensures Share(cable, times) >= 1
    ensures Split(cable, times).value
            == Rename(Prelim(PieceLengths(cable.length, times), cable.name))
    ensures PieceLengths(cable.length, times)
            == seq(times + 1, _ => Share(cable, times))
               + RemainderPieces(cable.length % (times + 1), Share(cable, times))
  {
    FloorDivModIsEuclidean(cable.length, times + 1);
    ShareAtLeastOne(cable.length, times);
    PieceLengthsByDivision(cable.length, times);
  }

  /** The split count is checked first: it alone decides whether the count error is raised. */
  lemma BadCountExactly(cable: Cable, times: int)
    ensures Split(cable, times) == Failure(BadCount) <==> times < MinTimes || times > MaxTimes
  {
  }

  /**
   With a valid count, the length error is raised, carrying the cable's
   length, exactly when the length is outside the bound the name selects:
   1..1024 for a name containing a dash, 2..1024 otherwise.
   */
  lemma BadLengthExactly(cable: Cable, times: int)
    requires MinTimes <= times <= MaxTimes
    ensures Split(cable, times) == Failure(BadLength(cable.length)) <==> !LengthInBounds(cable)
    ensures ContainsDash(cable.name) ==>
              (Split(cable, times).Failure? && Split(cable, times).error.BadLength?
               <==> !(1 <= cable.length <= 1024))
    ensures !ContainsDash(cable.name) ==>
              (Split(cable, times).Failure? && Split(cable, times).error.BadLength?
               <==> !(2 <= cable.length <= 1024))
  {
  }

  /** After validation passes, the split is refused exactly when the cable is shorter than `times + 1`. */
  lemma UnsplittableExactly(cable: Cable, times: int)
    requires MinTimes <= times <= MaxTimes && LengthInBounds(cable)
    ensures Split(cable, times) == Failure(Unsplittable) <==> cable.length < times + 1
  {
    FloorDivModIsEuclidean(cable.length, times + 1);
    ShareAtLeastOne(cable.length, times);
  }

  /** A split succeeds exactly when all three checks pass. */
  lemma SplitSucceedsExactly(cable: Cable, times: int)
    ensures Split(cable, times).Success? <==>
              MinTimes <= times <= MaxTimes && LengthInBounds(cable) && times + 1 <= cable.length
  {
    if MinTimes <= times <= MaxTimes {
      FloorDivModIsEuclidean(cable.length, times + 1);
      ShareAtLeastOne(cable.length, times);
    }
  }

  /** The lengths of the pieces, before renaming, add up to the cable's length. */
  lemma PieceLengthsSum(length: int, times: nat)
    requires times + 1 <= length
    ensures Sum(PieceLengths(length, times)) == length
  {
    var share := length / (times + 1);
    PieceLengthsByDivision(length, times);
    DivisionOfNat(length, times + 1);
    SumAppend(seq(times + 1, _ => share), RemainderPieces(length % (times + 1), share));
    SumConstant(times + 1, share);
  }

  lemma LengthsOfPrelim(ls: seq<int>, name: string)
    ensures Lengths(Prelim(ls, name)) == ls
  {
  }

  /** Nothing is lost or gained: the pieces add up to exactly the cable's length. */
  lemma LengthConserved(cable: Cable, times: int)
    requires Split(cable, times).Success?
    ensures TotalLength(Split(cable, times).value) == cable.length
  {
    SplitUnfold(cable, times);
    LengthsOfPrelim(PieceLengths(cable.length, times), cable.name);
    PieceLengthsSum(cable.length, times);
  }

  /**
   Every piece is between 1 and the equal share long; the first `times + 1`
   are exactly the share, and only the last piece may be shorter.
   */
  lemma PieceLengthBounds(cable: Cable, times: int)
    requires Split(cable, times).Success?
    ensures var ps := Split(cable, times).value;
            && (forall i :: 0 <= i < |ps| ==> 1 <= ps[i].length <= Share(cable, times))
            && (forall i :: 0 <= i < times + 1 ==> ps[i].length == Share(cable, times))
            && (forall i :: 0 <= i < |ps| - 1 ==> ps[i].length == Share(cable, times))
  {
    SplitUnfold(cable, times);
    var ps := Split(cable, times).value;
    var ls := PieceLengths(cable.length, times);
    LengthsOfPrelim(ls, cable.name);
    assert Lengths(ps) == ls;
    forall i | 0 <= i < |ps|
      ensures ps[i].length == ls[i]
    {
      assert Lengths(ps)[i] == ps[i].length;
    }
  }

  /** There are at least `times + 1` pieces and at most `2 * times + 1`. */
  lemma PieceCountBounds(cable: Cable, times: int)
    requires Split(cable, times).Success?
    ensures times + 1 <= |Split(cable, times).value| <= 2 * times + 1
  {
    SplitUnfold(cable, times);
    LengthsOfPrelim(PieceLengths(cable.length, times), cable.name);
    assert |Lengths(Split(cable, times).value)| == |PieceLengths(cable.length, times)|;
  }

  lemma SharesCons(share: int, k: nat, last: seq<int>)
    ensures [share] + (seq(k, _ => share) + last) == seq(k + 1, _ => share) + last
  {
    assert [share] + seq(k, _ => share) == seq(k + 1, _ => share);
  }

  /**
   An independent description of the remainder pieces: when
   `remainder == count * share + rest` with `0 <= rest < share`, they are
   `count` full shares followed by `rest` as one piece when it is not zero.
   */
  lemma {:induction false} RemainderPiecesAsShares(remainder: int, share: int, count: nat, rest: int)
    requires 1 <= share && 0 <= rest < share && remainder == count * share + rest
    ensures RemainderPieces(remainder, share)
            == seq(count, _ => share) + (if rest == 0 then [] else [rest])
    decreases count
  {
    var last: seq<int> := if rest == 0 then [] else [rest];
    if count > 0 {
      MulAtLeast(share, count);
      assert remainder - share == (count - 1) * share + rest;
      RemainderPiecesAsShares(remainder - share, share, count - 1, rest);
      assert RemainderPieces(remainder, share) == [share] + RemainderPieces(remainder - share, share);
      SharesCons(share, count - 1, last);
    }
  }

  /** The same description with the quotient and remainder of the division written out. */
  lemma RemainderPiecesClosedForm(remainder: int, share: int)
    requires 0 <= remainder && 1 <= share
    ensures RemainderPieces(remainder, share)
            == seq(remainder / share, _ => share)
               + (if remainder % share == 0 then [] else [remainder % share])
  {
    DivisionOfNat(remainder, share);
    RemainderPiecesAsShares(remainder, share, remainder / share, remainder % share);
  }

  /** The number of pieces is `times + 1` plus the remainder divided by the share, rounded up. */
  lemma PieceCountExact(cable: Cable, times: int)
    requires Split(cable, times).Success?
    ensures |Split(cable, times).value|
            == times + 1 + CeilDiv(cable.length % (times + 1), Share(cable, times))
  {
    SplitUnfold(cable, times);
    var rem, share := cable.length % (times + 1), Share(cable, times);
    LengthsOfPrelim(PieceLengths(cable.length, times), cable.name);
    assert |Lengths(Split(cable, times).value)| == |PieceLengths(cable.length, times)|;
    DivisionOfNat(cable.length, times + 1);
    RemainderPieceCount(rem, share);
  }

  /** The remainder loop runs the remainder divided by the share, rounded up, times. */
  lemma RemainderPieceCount(remainder: int, share: int)
    requires 0 <= remainder && 1 <= share
    ensures |RemainderPieces(remainder, share)| == CeilDiv(remainder, share)
  {
    DivisionOfNat(remainder, share);
    RemainderPiecesClosedForm(remainder, share);
  }

  /**
   The length of each piece in closed form: the first `times + 1` pieces and
   as many more as the remainder holds whole shares have the share's length;
   a last piece, if any, has what is left of the remainder.
   */
  lemma PieceLengthsClosedForm(cable: Cable, times: int)
    requires Split(cable, times).Success?
    ensures var ps := Split(cable, times).value;
            var rem, share := cable.length % (times + 1), Share(cable, times);
            forall i :: 0 <= i < |ps| ==>
              ps[i].length == if i < times + 1 + rem / share then share else rem % share
  {
    SplitUnfold(cable, times);
    var ps := Split(cable, times).value;
    var rem, share := cable.length % (times + 1), Share(cable, times);
    var ls := PieceLengths(cable.length, times);
    LengthsOfPrelim(ls, cable.name);
    DivisionOfNat(rem, share);
    LengthsClosedForm(ps, ls, times + 1, rem, share, rem / share, rem % share);
  }

  lemma LengthsClosedForm(ps: seq<Cable>, ls: seq<int>, base: nat, rem: int, share: int, q: nat, m: int)
    requires 1 <= share && 0 <= m < share && rem == q * share + m
    requires ls == seq(base, _ => share) + RemainderPieces(rem, share)
    requires Lengths(ps) == ls
    ensures forall i :: 0 <= i < |ps| ==> ps[i].length == if i < base + q then share else m
  {
    RemainderPiecesAsShares(rem, share, q, m);
    SharesThenRest(ls, base, q, share, m);
    LengthsAt(ps, ls, base + q, share, m);
  }

  lemma LengthsAt(ps: seq<Cable>, ls: seq<int>, k: int, share: int, m: int)
    requires Lengths(ps) == ls
    requires forall i :: 0 <= i < |ls| ==> ls[i] == if i < k then share else m
    ensures forall i :: 0 <= i < |ps| ==> ps[i].length == if i < k then share else m
  {
    forall i | 0 <= i < |ps|
      ensures ps[i].length == if i < k then share else m
    {
      assert Lengths(ps)[i] == ps[i].length;
    }
  }

  lemma SharesThenRest(ls: seq<int>, base: nat, count: nat, share: int, rest: int)
    requires ls == seq(base, _ => share) + (seq(count, _ => share) + (if rest == 0 then [] else [rest]))
    ensures forall i :: 0 <= i < |ls| ==> ls[i] == if i < base + count then share else rest
  {
  }

  /** `n / d` rounded up. */
  function CeilDiv(n: nat, d: int): int
    requires 1 <= d
  {
    n / d + (if n % d == 0 then 0 else 1)
  }

  /**
   At most ten pieces: piece `i` is named by the part of the cable's name
   before its first dash, a dash, and `i` without padding.
   */
  lemma ShortSplitNames(cable: Cable, times: int)
    requires Split(cable, times).Success?
    requires |Split(cable, times).value| <= UnpaddedLimit
    ensures var ps := Split(cable, times).value;
            forall i :: 0 <= i < |ps| ==>
              ps[i].name == PrefixBeforeDash(cable.name) + [Dash] + Decimal(i)
  {
    SplitUnfold(cable, times);
    var ps := Split(cable, times).value;
    var pre := Prelim(PieceLengths(cable.length, times), cable.name);
    forall i | 0 <= i < |ps|
      ensures ps[i].name == PrefixBeforeDash(cable.name) + [Dash] + Decimal(i)
    {
      assert pre[i].name == cable.name + [Dash] + Padded(i);
      PrefixBeforeDashOfJoined(cable.name, Padded(i));
    }
  }

  /**
   More than ten pieces: piece `i` keeps its first name, the cable's whole
   name, a dash, and `i` zero-filled to at least two digits.
   */
  lemma LongSplitNames(cable: Cable, times: int)
    requires Split(cable, times).Success?
    requires |Split(cable, times).value| > UnpaddedLimit
    ensures var ps := Split(cable, times).value;
            forall i :: 0 <= i < |ps| ==> ps[i].name == cable.name + [Dash] + Padded(i)
  {
    SplitUnfold(cable, times);
  }

  /**
   An independent description of a successful split's result, piece by
   piece, with no loop and no renaming pass: the count, each piece's length
   and each piece's name given directly.
   */
  function ExpectedPieces(cable: Cable, times: nat): (ps: seq<Cable>)
    requires times + 1 <= cable.length
  {
    var n := ExpectedCount(cable, times);
    seq(n, i requires 0 <= i < n =>
          Cable(ExpectedLength(cable, times, i), ExpectedName(cable.name, n, i)))
  }

  /** `times + 1` equal pieces, plus the remainder divided by the share rounded up. */
  function ExpectedCount(cable: Cable, times: nat): nat
    requires times + 1 <= cable.length
  {
    ShareAtLeastOne(cable.length, times);
    times + 1 + CeilDiv(cable.length % (times + 1), Share(cable, times))
  }

  /** Full shares up to the last whole share of the remainder, then what is left. */
  function ExpectedLength(cable: Cable, times: nat, i: nat): int
    requires times + 1 <= cable.length
  {
    ShareAtLeastOne(cable.length, times);
    var rem, share := cable.length % (times + 1), Share(cable, times);
    if i < times + 1 + rem / share then share else rem % share
  }

  /** Unpadded after the name's prefix for at most ten pieces, padded after the whole name otherwise. */
  function ExpectedName(name: string, count: nat, i: nat): string {
    if count <= UnpaddedLimit then PrefixBeforeDash(name) + [Dash] + Decimal(i)
    else name + [Dash] + Padded(i)
  }

  /** The split either fails as validation dictates or returns exactly the expected pieces. */
  lemma SplitMatchesExpected(cable: Cable, times: int)
    ensures Split(cable, times).Success? <==>
              MinTimes <= times <= MaxTimes && LengthInBounds(cable) && times + 1 <= cable.length
    ensures Split(cable, times).Success? ==> Split(cable, times).value == ExpectedPieces(cable, times)
  {
    SplitSucceedsExactly(cable, times);
    if Split(cable, times).Success? {
      var ps := Split(cable, times).value;
      SplitUnfold(cable, times);
      PieceCountExact(cable, times);
      PieceLengthsClosedForm(cable, times);
      if |ps| <= UnpaddedLimit {
        ShortSplitNames(cable, times);
      } else {
        LongSplitNames(cable, times);
      }
      var es := ExpectedPieces(cable, times);
      assert |es| == |ps|;
      forall i | 0 <= i < |ps|
        ensures ps[i] == es[i]
      {
      }
      assert ps == es;
    }
  }

  lemma SuffixAfter(a: string, b: string)
    ensures (a + b)[|a|..] == b
  {
  }

  /** No two pieces of one split share a name. */
  lemma NamesDistinct(cable: Cable, times: int)
    requires Split(cable, times).Success?
    ensures var ps := Split(cable, times).value;
            forall i, j :: 0 <= i < j < |ps| ==> ps[i].name != ps[j].name
  {
    var ps := Split(cable, times).value;
    var p := PrefixBeforeDash(cable.name) + [Dash];
    var q := cable.name + [Dash];
    if |ps| <= UnpaddedLimit {
      ShortSplitNames(cable, times);
    } else {
      LongSplitNames(cable, times);
    }
    forall i, j | 0 <= i < j < |ps|
      ensures ps[i].name != ps[j].name
    {
      RenderingsInjective(i, j);
      if |ps| <= UnpaddedLimit {
        assert ps[i].name == p + Decimal(i) && ps[j].name == p + Decimal(j);
        SuffixAfter(p, Decimal(i));
        SuffixAfter(p, Decimal(j));
      } else {
        assert ps[i].name == q + Padded(i) && ps[j].name == q + Padded(j);
        SuffixAfter(q, Padded(i));
        SuffixAfter(q, Padded(j));
      }
    }
  }

  /**
   Every piece's name contains a dash, so a piece counts as derived when it
   is split again and only needs length 1.
   */
  lemma PiecesAreDerived(cable: Cable, times: int)
    requires Split(cable, times).Success?
    ensures var ps := Split(cable, times).value;
            forall i :: 0 <= i < |ps| ==> ContainsDash(ps[i].name) && MinLength(ps[i].name) == 1
  {
    var ps := Split(cable, times).value;
    if |ps| <= UnpaddedLimit {
      ShortSplitNames(cable, times);
    } else {
      LongSplitNames(cable, times);
    }
    forall i | 0 <= i < |ps|
      ensures ContainsDash(ps[i].name)
    {
      if |ps| <= UnpaddedLimit {
        assert ps[i].name[|PrefixBeforeDash(cable.name)|] == Dash;
      } else {
        assert ps[i].name[|cable.name|] == Dash;
      }
    }
  }
}
