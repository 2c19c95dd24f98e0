# Cable splitter, modelled in Dafny

The system cuts one cable (a `Cable` with an integer length and a name) into
pieces. `Splitter.split(cable, times)` does four things in order:

1. **Validation.** It checks that the split count lies in 1..64. It then
   checks a length bound that depends on the name. A name containing `-`
   marks a cable that came out of an earlier split; such a cable may be
   1..1024 long. Any other cable must be 2..1024 long.
2. **Too-short check.** The equal share `length // (times + 1)` must be at
   least 1.
3. **Pieces.** It makes `times + 1` pieces of the share's length. It then
   hands out the remainder `length % (times + 1)` as further pieces of the
   share's length while they fit, with one shorter last piece if needed.
4. **Naming.** At most ten pieces are named `<prefix>-<i>`, where
   `<prefix>` is the cable's name up to its first `-` and `i` is not padded.
   More pieces keep their first names, `<name>-<ii>`, with `i` zero-filled to
   two digits.

Files and modules:

- `cable.dfy`, module `Cables`: the `Cable` value type, and sums of piece
  lengths.
- `text.dfy`, module `Text`: decimal rendering with and without the
  two-digit zero fill, decimal parsing as its inverse, "contains a dash",
  and "prefix before the first dash".
- `splitter.dfy`, module `Splitter`: the three errors, `Validate`, floor
  division, the remainder pieces, the first (padded) names, the renaming pass, and
  `Split`, the whole operation as one function returning a `Result`.
- `splitter_properties.dfy`, module `SplitterProperties`: what a split
  promises. This covers when each error is raised, conservation of length,
  the piece lengths, the piece count and the naming regimes. It also gives
  `ExpectedPieces`, a loop-free description of the result, and proves that
  `Split` agrees with it.
- `splitter_loop.dfy`, module `SplitterLoop`: `SplitCable`, a method that
  follows the source's `for` and `while` loops. It is proved equal to
  `Split`.
- `splitter_examples.dfy`, module `SplitterExamples`: the test suite's
  scenarios. Each successful split of the tests is proved for any name of
  the right kind, and then for the name `coconuts` with every piece written
  out. The refused calls of the tests are proved for their literal cables
  only. `SplitDerivedCableAnyName` is an extra scenario, not from the tests.
  The test that a split returns something (not `None`) is covered by
  `SplitInHalf`, whose result is a `Success`.

Python's `//` and `%` are modelled as `FloorDiv` and `FloorMod`. They take
the divisor away from the dividend repeatedly, or add it back while the
dividend is negative. With a positive divisor, which is the only kind the
splitter uses, they are proved equal to Dafny's Euclidean `/` and `%`.
Integers are unbounded in both languages.

The docstring of `split` shows `main-00` and `main-01` for a split into two
pieces. The code renames such small splits to `main-0` and `main-1`, and the
test suite expects exactly that. The model follows the code.

One consequence of the renaming pass is recorded as a scenario
(`SplitDerivedCableAnyName`). A derived cable split into at most ten pieces
loses its own suffix: splitting `coconuts-1` once gives `coconuts-0` and
`coconuts-1`.

## Model

| member | source | states |
|---|---|---|
| Text.Decimal | src/coding_exercise/application/splitter.py:94 | the unpadded rendering of `i` is a non-empty string of digits with no leading zero, one digit exactly when `i < 10` |
| Text.Padded | src/coding_exercise/application/splitter.py:73 | the `:02d` rendering is all digits and exactly as wide as the larger of 2 and the number's digit count |
| Text.SameWidthSameValue | src/coding_exercise/application/splitter.py:73 | two digit strings of the same width that read as the same number are equal |
| Text.PaddedDetermined | src/coding_exercise/application/splitter.py:73 | width and value together fix the zero-filled rendering: any digit string as wide as it that reads back as `n` is it |
| Text.ParseDecimalOfDecimal | src/coding_exercise/application/splitter.py:94 | reading the unpadded rendering back as a number gives the number |
| Text.ParseDecimalOfPadded | src/coding_exercise/application/splitter.py:73 | reading the zero-filled rendering back gives the number, so the fill adds no value |
| Text.RenderingsInjective | src/coding_exercise/application/splitter.py:92-97 | two different indices never render the same, padded or not |
| Text.PrefixBeforeDash | src/coding_exercise/application/splitter.py:94 | `name.split("-")[0]` is a prefix of the name with no dash, ending at the end of the name or just before a dash |
| Text.PrefixBeforeDashUnique | src/coding_exercise/application/splitter.py:94 | any string with those three properties is that prefix, so the contract pins the result down |
| Text.PrefixBeforeDashOfJoined | src/coding_exercise/application/splitter.py:94 | appending a dash and any suffix to a name leaves its prefix before the first dash unchanged |
| Text.PrefixBeforeDashWhole | src/coding_exercise/application/splitter.py:24 | the prefix is the whole name exactly when the name has no dash |
| Splitter.MinLength | src/coding_exercise/application/splitter.py:24-31 | the lower length bound is 1 or 2, chosen by whether the name contains a dash |
| Splitter.Validate | src/coding_exercise/application/splitter.py:22-31 | the count error is raised exactly for a count outside 1..64. Validation passes exactly when the count is in range and the length lies between the name's bound and 1024. Any other error is the length error carrying the cable's length |
| Splitter.FloorMod | src/coding_exercise/application/splitter.py:77 | Python's `%` by a positive divisor leaves a remainder from 0 up to, but not including, the divisor |
| Splitter.FloorDivModRecombine | src/coding_exercise/application/splitter.py:59-77 | the floor quotient times the divisor plus the floor remainder gives back the dividend, negative dividends included |
| Splitter.FloorDivModIsEuclidean | src/coding_exercise/application/splitter.py:59-77 | with a positive divisor, Python's `//` and `%` equal Dafny's `/` and `%` |
| Splitter.ShareAtLeastOne | src/coding_exercise/application/splitter.py:59-65 | the equal share is at least 1 exactly when the length is at least `times + 1` |
| Splitter.RemainderPieces | src/coding_exercise/application/splitter.py:77-90 | the pieces the remainder loop adds sum to the remainder. There are at most as many pieces as units of remainder. Each is between 1 and the share, and all but the last equal the share |
| Splitter.Rename | src/coding_exercise/application/splitter.py:92-97 | the renaming pass keeps every piece's length and order |
| SplitterProperties.BadCountExactly | src/coding_exercise/application/splitter.py:22-23 | a split fails with the count error exactly when `times < 1` or `times > 64`, whatever the cable |
| SplitterProperties.BadLengthExactly | src/coding_exercise/application/splitter.py:24-31 | with a valid count, the length error is raised, carrying the cable's length, exactly when the length is outside 1..1024 (name with a dash) or 2..1024 (name without) |
| SplitterProperties.UnsplittableExactly | src/coding_exercise/application/splitter.py:59-65 | once validation passes, the split is refused exactly when the length is below `times + 1` |
| SplitterProperties.SplitSucceedsExactly | src/coding_exercise/application/splitter.py:56-65 | a split succeeds exactly when the count is valid, the length is within its bound and the length is at least `times + 1` |
| SplitterProperties.PieceLengthsSum | src/coding_exercise/application/splitter.py:59-90 | the equal pieces plus the remainder pieces sum to the cable's length |
| SplitterProperties.LengthConserved | src/coding_exercise/application/splitter.py:59-90 | the lengths of the returned pieces sum to exactly the cable's length |
| SplitterProperties.PieceLengthBounds | src/coding_exercise/application/splitter.py:71-90 | every piece is between 1 and the share long, the first `times + 1` equal the share, and only the last piece may be shorter |
| SplitterProperties.PieceCountBounds | src/coding_exercise/application/splitter.py:71-90 | a split returns between `times + 1` and `2 * times + 1` pieces |
| SplitterProperties.RemainderPiecesAsShares | src/coding_exercise/application/splitter.py:77-90 | when the remainder is `count * share + rest`, the remainder loop adds `count` full shares and then `rest` as one piece if it is not zero |
| SplitterProperties.RemainderPiecesClosedForm | src/coding_exercise/application/splitter.py:77-90 | the remainder loop adds `remainder / share` full shares, then `remainder % share` as one piece if it is not zero |
| SplitterProperties.RemainderPieceCount | src/coding_exercise/application/splitter.py:77-90 | the remainder loop adds as many pieces as the remainder divided by the share, rounded up |
| SplitterProperties.PieceCountExact | src/coding_exercise/application/splitter.py:71-90 | the piece count is `times + 1` plus the remainder divided by the share, rounded up |
| SplitterProperties.PieceLengthsClosedForm | src/coding_exercise/application/splitter.py:71-90 | piece `i` has the share's length while `i < times + 1 + remainder / share`, and `remainder % share` after that |
| SplitterProperties.SplitMatchesExpected | src/coding_exercise/application/splitter.py:56-97 | the split succeeds exactly under the three checks, and then returns exactly the loop-free `ExpectedPieces`: that count, those lengths, those names |
| SplitterProperties.ShortSplitNames | src/coding_exercise/application/splitter.py:92-96 | with at most ten pieces, piece `i` is named by the prefix of the cable's name before its first dash, a dash, and `i` unpadded |
| SplitterProperties.LongSplitNames | src/coding_exercise/application/splitter.py:71-97 | with more than ten pieces, piece `i` is named by the cable's whole name, a dash, and `i` zero-filled to two digits |
| SplitterProperties.NamesDistinct | src/coding_exercise/application/splitter.py:71-97 | no two pieces of one split have the same name |
| SplitterProperties.PiecesAreDerived | src/coding_exercise/application/splitter.py:24-31 | every piece's name contains a dash, so a piece faces the looser length bound when split again |
| SplitterLoop.EqualPieces | src/coding_exercise/application/splitter.py:71-74 | the counted loop builds `times + 1` pieces of the share's length, named by their zero-filled index |
| SplitterLoop.AppendRemainder | src/coding_exercise/application/splitter.py:77-90 | the remainder loop appends exactly the remainder pieces, each named by its zero-filled position |
| SplitterLoop.SplitCable | src/coding_exercise/application/splitter.py:56-97 | the loop-by-loop split returns what `Split` returns. It succeeds exactly under the three checks, and then conserves length and returns between `times + 1` and `2 * times + 1` pieces |
| SplitterExamples.SplitInHalfAnyName | tests/coding_exercise/application/test_splitter.py:12-21 | for any name without a dash, a length-10 cable split once gives two pieces of 5 named `-0` and `-1` |
| SplitterExamples.SplitWithRemainderAnyName | tests/coding_exercise/application/test_splitter.py:40-50 | for any name without a dash, a length-5 cable split twice gives five unit pieces named `-0` to `-4` |
| SplitterExamples.SplitWithSmallRemainderAnyName | tests/coding_exercise/application/test_splitter.py:53-64 | for any name without a dash, a length-11 cable split three times gives five pieces of 2 and a last piece of 1, named `-0` to `-5` |
| SplitterExamples.SplitIntoMoreThanTenAnyName | tests/coding_exercise/application/test_splitter.py:67-83 | for any name, a length-11 cable split ten times gives eleven unit pieces named `-00` to `-10` |
| SplitterExamples.SplitDerivedCableAnyName | src/coding_exercise/application/splitter.py:92-96 | a length-4 cable named `base-suffix` split once gives `base-0` and `base-1`; the suffix is dropped |
| SplitterExamples.SplitInHalf | tests/coding_exercise/application/test_splitter.py:8-21 | `Cable(10, "coconuts")` split once succeeds, so it returns something, and is exactly `[Cable(5, "coconuts-0"), Cable(5, "coconuts-1")]` |
| SplitterExamples.SplitWithRemainder | tests/coding_exercise/application/test_splitter.py:40-50 | `Cable(5, "coconuts")` split twice is exactly the five unit pieces `coconuts-0` to `coconuts-4` |
| SplitterExamples.SplitWithSmallRemainder | tests/coding_exercise/application/test_splitter.py:53-64 | `Cable(11, "coconuts")` split three times is exactly `[2, 2, 2, 2, 2, 1]` named `coconuts-0` to `coconuts-5` |
| SplitterExamples.SplitIntoMoreThanTen | tests/coding_exercise/application/test_splitter.py:67-83 | `Cable(11, "coconuts")` split ten times is exactly eleven unit pieces `coconuts-00` to `coconuts-10` |
| SplitterExamples.RefusedSplits | tests/coding_exercise/application/test_splitter.py:24-37 | the seven refused calls of the tests raise the expected error. Counts 65, -1 and 0 give the count error. `Cable(1, "coconuts")`, `Cable(0, "coconuts-0")` and `Cable(1025, "coconuts-0")` give the length error with their length. `Cable(1, "coconuts-0")` passes validation and is unsplittable |

## Left out

- The text of the error messages is not modelled. Each error is a variant of
  `SplitError`, and the length error carries the observed length. The count
  and unsplittable errors carry nothing.
- The `Splitter` class, `self`, and the name mangling of `__validate` are not
  modelled. The operations are plain functions and methods.
- `coding_exercise/domain/model/cable.py` is not part of this model. `Cable`
  is modelled as a plain value with structural equality and no validation of
  its own, which is how the splitter and its tests use it.
- Python's dynamic typing is not modelled: `times` and `length` are integers
  and `name` is a string. Non-integer arguments are outside the model.
- Only the two number formats the splitter uses are modelled: unpadded
  decimal, and decimal zero-filled to two digits. General string formatting
  is not.
