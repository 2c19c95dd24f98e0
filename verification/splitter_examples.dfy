/**
 The worked scenarios of the splitter's test suite, evaluated on the model.
 Each successful scenario is first proved for any cable name of the right
 kind (piece by piece, from `SplitMatchesExpected`), then for the name
 `coconuts` the tests use, with every piece written out.
 */
module SplitterExamples {
  import opened Cables
  import opened Text
  import opened Splitter
  import opened SplitterProperties

  /** A name without a dash is its own prefix before the first dash. */
  lemma UndashedPrefix(name: string)
    requires !ContainsDash(name)
    ensures PrefixBeforeDash(name) == name
  {
    PrefixBeforeDashWhole(name);
  }

  /** Ten-length cable, one split: two halves of 5. */
  lemma SplitInHalfAnyName(name: string)
    requires !ContainsDash(name)
    ensures Split(Cable(10, name), 1)
            == Success(seq(2, i requires 0 <= i < 2 => Cable(5, name + [Dash] + Decimal(i))))
  {
    var c := Cable(10, name);
    SplitMatchesExpected(c, 1);
    UndashedPrefix(name);
    var es := ExpectedPieces(c, 1);
    var want := seq(2, i requires 0 <= i < 2 => Cable(5, name + [Dash] + Decimal(i)));
    assert |es| == 2;
    forall i | 0 <= i < 2
      ensures es[i] == want[i]
    {
    }
    assert es == want;
  }

  /** Five-length cable, two splits: a share of 1 and a remainder of 2 give five unit pieces. */
  lemma SplitWithRemainderAnyName(name: string)
    requires !ContainsDash(name)
    ensures Split(Cable(5, name), 2)
            == Success(seq(5, i requires 0 <= i < 5 => Cable(1, name + [Dash] + Decimal(i))))
  {
    var c := Cable(5, name);
    SplitMatchesExpected(c, 2);
    UndashedPrefix(name);
    var es := ExpectedPieces(c, 2);
    var want := seq(5, i requires 0 <= i < 5 => Cable(1, name + [Dash] + Decimal(i)));
    assert |es| == 5;
    forall i | 0 <= i < 5
      ensures es[i] == want[i]
    {
    }
    assert es == want;
  }

  /** Eleven-length cable, three splits: four shares of 2, one more share of 2, a last piece of 1. */
  lemma SplitWithSmallRemainderAnyName(name: string)
    requires !ContainsDash(name)
    ensures Split(Cable(11, name), 3)
            == Success(seq(6, i requires 0 <= i < 6 =>
                             Cable(if i < 5 then 2 else 1, name + [Dash] + Decimal(i))))
  {
    var c := Cable(11, name);
    SplitMatchesExpected(c, 3);
    UndashedPrefix(name);
    var es := ExpectedPieces(c, 3);
    var want := seq(6, i requires 0 <= i < 6 => Cable(if i < 5 then 2 else 1, name + [Dash] + Decimal(i)));
    assert |es| == 6;
    forall i | 0 <= i < 6
      ensures es[i] == want[i]
    {
    }
    assert es == want;
  }

  /** Eleven-length cable, ten splits: eleven unit pieces, more than ten, so the names stay padded. */
  lemma SplitIntoMoreThanTenAnyName(name: string)
    ensures Split(Cable(11, name), 10)
            == Success(seq(11, i requires 0 <= i < 11 => Cable(1, name + [Dash] + Padded(i))))
  {
    var c := Cable(11, name);
    SplitMatchesExpected(c, 10);
    var es := ExpectedPieces(c, 10);
    var want := seq(11, i requires 0 <= i < 11 => Cable(1, name + [Dash] + Padded(i)));
    assert |es| == 11;
    forall i | 0 <= i < 11
      ensures es[i] == want[i]
    {
    }
    assert es == want;
  }

  /**
   A derived cable split into few pieces loses its own suffix: a cable named
   `base-suffix` of length 4, split once, gives `base-0` and `base-1`.
   */
  lemma SplitDerivedCableAnyName(base: string, suffix: string)
    requires !ContainsDash(base)
    ensures Split(Cable(4, base + [Dash] + suffix), 1)
            == Success(seq(2, i requires 0 <= i < 2 => Cable(2, base + [Dash] + Decimal(i))))
  {
    var c := Cable(4, base + [Dash] + suffix);
    assert c.name[|base|] == Dash;
    PrefixBeforeDashOfJoined(base, suffix);
    UndashedPrefix(base);
    SplitMatchesExpected(c, 1);
    var es := ExpectedPieces(c, 1);
    var want := seq(2, i requires 0 <= i < 2 => Cable(2, base + [Dash] + Decimal(i)));
    assert |es| == 2;
    forall i | 0 <= i < 2
      ensures es[i] == want[i]
    {
    }
    assert es == want;
  }

  lemma CoconutsUnpadded()
    ensures !ContainsDash("coconuts")
    ensures "coconuts" + [Dash] + Decimal(0) == "coconuts-0"
    ensures "coconuts" + [Dash] + Decimal(1) == "coconuts-1"
    ensures "coconuts" + [Dash] + Decimal(2) == "coconuts-2"
    ensures "coconuts" + [Dash] + Decimal(3) == "coconuts-3"
    ensures "coconuts" + [Dash] + Decimal(4) == "coconuts-4"
    ensures "coconuts" + [Dash] + Decimal(5) == "coconuts-5"
  {
  }

  lemma CoconutsPadded()
    ensures "coconuts" + [Dash] + Padded(0) == "coconuts-00"
    ensures "coconuts" + [Dash] + Padded(1) == "coconuts-01"
    ensures "coconuts" + [Dash] + Padded(2) == "coconuts-02"
    ensures "coconuts" + [Dash] + Padded(3) == "coconuts-03"
    ensures "coconuts" + [Dash] + Padded(4) == "coconuts-04"
    ensures "coconuts" + [Dash] + Padded(5) == "coconuts-05"
    ensures "coconuts" + [Dash] + Padded(6) == "coconuts-06"
    ensures "coconuts" + [Dash] + Padded(7) == "coconuts-07"
    ensures "coconuts" + [Dash] + Padded(8) == "coconuts-08"
    ensures "coconuts" + [Dash] + Padded(9) == "coconuts-09"
    ensures "coconuts" + [Dash] + Padded(10) == "coconuts-10"
  {
  }

  /** Scenario: `Cable(10, "coconuts")` split once. */
  lemma SplitInHalf()
    ensures Split(Cable(10, "coconuts"), 1)
            == Success([Cable(5, "coconuts-0"), Cable(5, "coconuts-1")])
  {
    CoconutsUnpadded();
    SplitInHalfAnyName("coconuts");
    var ps := Split(Cable(10, "coconuts"), 1).value;
    assert ps[0] == Cable(5, "coconuts-0") && ps[1] == Cable(5, "coconuts-1");
    assert ps == [ps[0], ps[1]];
  }

  /** Scenario: `Cable(5, "coconuts")` split twice. */
  lemma SplitWithRemainder()
    ensures Split(Cable(5, "coconuts"), 2)
            == Success([Cable(1, "coconuts-0"), Cable(1, "coconuts-1"), Cable(1, "coconuts-2"),
                        Cable(1, "coconuts-3"), Cable(1, "coconuts-4")])
  {
    CoconutsUnpadded();
    SplitWithRemainderAnyName("coconuts");
    var ps := Split(Cable(5, "coconuts"), 2).value;
    assert ps[0] == Cable(1, "coconuts-0") && ps[1] == Cable(1, "coconuts-1");
    assert ps[2] == Cable(1, "coconuts-2") && ps[3] == Cable(1, "coconuts-3");
    assert ps[4] == Cable(1, "coconuts-4");
    assert ps == [ps[0], ps[1], ps[2], ps[3], ps[4]];
  }

  /** Scenario: `Cable(11, "coconuts")` split three times. */
  lemma SplitWithSmallRemainder()
    ensures Split(Cable(11, "coconuts"), 3)
            == Success([Cable(2, "coconuts-0"), Cable(2, "coconuts-1"), Cable(2, "coconuts-2"),
                        Cable(2, "coconuts-3"), Cable(2, "coconuts-4"), Cable(1, "coconuts-5")])
  {
    CoconutsUnpadded();
    SplitWithSmallRemainderAnyName("coconuts");
    var ps := Split(Cable(11, "coconuts"), 3).value;
    assert ps[0] == Cable(2, "coconuts-0") && ps[1] == Cable(2, "coconuts-1");
    assert ps[2] == Cable(2, "coconuts-2") && ps[3] == Cable(2, "coconuts-3");
    assert ps[4] == Cable(2, "coconuts-4") && ps[5] == Cable(1, "coconuts-5");
    assert ps == [ps[0], ps[1], ps[2], ps[3], ps[4], ps[5]];
  }

  /** Scenario: `Cable(11, "coconuts")` split ten times. */
  lemma SplitIntoMoreThanTen()
    ensures Split(Cable(11, "coconuts"), 10)
            == Success([Cable(1, "coconuts-00"), Cable(1, "coconuts-01"), Cable(1, "coconuts-02"),
                        Cable(1, "coconuts-03"), Cable(1, "coconuts-04"), Cable(1, "coconuts-05"),
                        Cable(1, "coconuts-06"), Cable(1, "coconuts-07"), Cable(1, "coconuts-08"),
                        Cable(1, "coconuts-09"), Cable(1, "coconuts-10")])
  {
    CoconutsPadded();
    SplitIntoMoreThanTenAnyName("coconuts");
    var ps := Split(Cable(11, "coconuts"), 10).value;
    assert ps[0] == Cable(1, "coconuts-00") && ps[1] == Cable(1, "coconuts-01");
    assert ps[2] == Cable(1, "coconuts-02") && ps[3] == Cable(1, "coconuts-03");
    assert ps[4] == Cable(1, "coconuts-04") && ps[5] == Cable(1, "coconuts-05");
    assert ps[6] == Cable(1, "coconuts-06") && ps[7] == Cable(1, "coconuts-07");
    assert ps[8] == Cable(1, "coconuts-08") && ps[9] == Cable(1, "coconuts-09");
    assert ps[10] == Cable(1, "coconuts-10");
    assert ps == [ps[0], ps[1], ps[2], ps[3], ps[4], ps[5], ps[6], ps[7], ps[8], ps[9], ps[10]];
  }

  /** The refused calls of the test suite, each with the error it raises. */
  lemma RefusedSplits()
    ensures Split(Cable(10, "coconuts"), 65) == Failure(BadCount)
    ensures Split(Cable(10, "coconuts"), -1) == Failure(BadCount)
    ensures Split(Cable(10, "coconuts"), 0) == Failure(BadCount)
    ensures Split(Cable(1, "coconuts"), 1) == Failure(BadLength(1))
    ensures Split(Cable(1, "coconuts-0"), 1) == Failure(Unsplittable)
    ensures Split(Cable(0, "coconuts-0"), 1) == Failure(BadLength(0))
    ensures Split(Cable(1025, "coconuts-0"), 1) == Failure(BadLength(1025))
  {
    CoconutsUnpadded();
    assert "coconuts-0"[8] == Dash;
  }
}
