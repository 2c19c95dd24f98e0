/**
 The split as the source writes it: a counted loop for the equal pieces and
 a loop that hands out the remainder, each proved to build what `Split`
 describes.
 */
module SplitterLoop {
  import opened Cables
  import opened Splitter
  import opened SplitterProperties

  lemma PrelimAppend(ls: seq<int>, x: int, name: string)
    ensures Prelim(ls + [x], name) == Prelim(ls, name) + [Cable(x, PaddedName(name, |ls|))]
  {
  }

  /** One pass of the remainder loop hands out the first of the remaining pieces. */
  lemma RemainderStep(done: seq<int>, left: int, share: int)
    requires 0 < left && 1 <= share
    ensures var piece := if left >= share then share else left;
            (done + [piece]) + RemainderPieces(left - piece, share)
            == done + RemainderPieces(left, share)
  {
    var piece := if left >= share then share else left;
    assert RemainderPieces(left, share) == [piece] + RemainderPieces(left - piece, share);
  }

  /**
   The split as the source performs it: validate, refuse a share below 1,
   append the equal pieces, hand out the remainder, rename.
   */
  method SplitCable(cable: Cable, times: int) returns (r: Result<seq<Cable>>)
    ensures r == Split(cable, times)
    ensures r.Success? <==>
              MinTimes <= times <= MaxTimes && LengthInBounds(cable) && times + 1 <= cable.length
    ensures r.Success? ==> TotalLength(r.value) == cable.length
    ensures r.Success? ==> times + 1 <= |r.value| <= 2 * times + 1
  {
    SplitSucceedsExactly(cable, times);
    var check := Validate(cable, times);
    if check.Invalid? {
      return Failure(check.error);
    }
    var splitLength := FloorDiv(cable.length, times + 1);
    FloorDivModIsEuclidean(cable.length, times + 1);
    ShareAtLeastOne(cable.length, times);
    if splitLength < 1 {
      return Failure(Unsplittable);
    }
    var result := EqualPieces(cable.name, times + 1, splitLength);
    var remainder := FloorMod(cable.length, times + 1);
    result := AppendRemainder(cable.name, result, seq(times + 1, _ => splitLength), remainder, splitLength);
    r := Success(Rename(result));
    LengthConserved(cable, times);
    PieceCountBounds(cable, times);
  }

  /** The first loop: `count` pieces of length `share` with zero-padded names. */
  method EqualPieces(name: string, count: nat, share: int) returns (result: seq<Cable>)
    ensures result == Prelim(seq(count, _ => share), name)
  {
    ghost var lengths: seq<int> := [];
    result := [];
    for i := 0 to count
      invariant lengths == seq(i, _ => share)
      invariant result == Prelim(lengths, name)
    {
      PrelimAppend(lengths, share, name);
      result := result + [Cable(share, PaddedName(name, i))];
      lengths := lengths + [share];
    }
  }

  /**
   The remainder loop: keep appending pieces of length `share` while the
   remainder is at least that long, then one piece with what is left.
   `lengths` are the lengths `pieces` were built from.
   */
  method AppendRemainder(name: string, pieces: seq<Cable>, ghost lengths: seq<int>, remainder: int, share: int)
    returns (result: seq<Cable>)
    requires pieces == Prelim(lengths, name)
    requires 0 <= remainder && 1 <= share
    ensures result == Prelim(lengths + RemainderPieces(remainder, share), name)
  {
    result := pieces;
    var left := remainder;
    ghost var done := lengths;
    while left > 0
      invariant 0 <= left
      invariant done + RemainderPieces(left, share) == lengths + RemainderPieces(remainder, share)
      invariant result == Prelim(done, name)
      decreases left
    {
      ghost var piece := if left >= share then share else left;
      RemainderStep(done, left, share);
      PrelimAppend(done, piece, name);
      if left >= share {
        result := result + [Cable(share, PaddedName(name, |result|))];
        left := left - share;
      } else {
        result := result + [Cable(left, PaddedName(name, |result|))];
        left := 0;
      }
      done := done + [piece];
    }
  }
}
