/**
 * The normaliser `name_transform`: validates raw input sequences, folds
 * their case and, for three-letter input, converts them to the canonical
 * one-letter form every procedure works on. For one-letter input it also
 * computes the advisory that the input may have been meant as three-letter
 * code; the tool prints that advisory, here it is a returned flag.
 */
module Normalizer {
  import opened Wrappers
  import opened Errors
  import opened Residues
  import opened Validator

  /** What a successful normalisation returns: the canonical sequences, and whether the advisory fires. */
  datatype Normalized = Normalized(seqs: seq<string>, advisory: bool)

  function Min(a: int, b: int): int {
    if a <= b then a else b
  }

  /**
   * The sequence cut into consecutive chunks of three characters, the last
   * chunk shorter when the length is not a multiple of three.
   */
  function Triplets(s: string): (r: seq<string>)
    ensures |r| == 0 <==> |s| == 0
    ensures forall k :: 0 <= k < |r| ==> 1 <= |r[k]| <= 3
    ensures forall k :: 0 <= k < |r| - 1 ==> |r[k]| == 3
  {
    seq((|s| + 2) / 3, k requires 0 <= k < (|s| + 2) / 3 => s[3 * k .. Min(3 * k + 3, |s|)])
  }

  /**
   * The position of the first element of `xs` that fails `valid`, or None
   * when every element passes.
   */
  function FirstFailure<T>(xs: seq<T>, valid: T -> bool): (r: Option<nat>)
    ensures r.None? <==> forall k :: 0 <= k < |xs| ==> valid(xs[k])
    ensures r.Some? ==> r.value < |xs| && !valid(xs[r.value])
    ensures r.Some? ==> forall k :: 0 <= k < r.value ==> valid(xs[k])
  {
    if xs == [] then None
    else if !valid(xs[0]) then Some(0)
    else match FirstFailure(xs[1..], valid)
      case None => None
      case Some(k) => Some(k + 1)
  }

  /** Python's `all` over a list of flags. */
  predicate All(flags: seq<bool>) {
    forall k :: 0 <= k < |flags| ==> flags[k]
  }

  /** A single character that the validator accepts. */
  predicate IsResidueLetter(c: char) {
    IsAminoAcid([c])
  }

  predicate AllResidueLetters(s: string) {
    forall k :: 0 <= k < |s| ==> IsResidueLetter(s[k])
  }

  /** `is_length_divisible_by_3`. */
  function IsLengthDivisibleBy3(s: string): (r: bool)
    ensures r <==> 3 * |Triplets(s)| == |s|
  {
    TripletsShape(s);
    |s| % 3 == 0
  }

  /**
   * The value of `is_amino_acid_three_letter(s)`: its loop returns from its
   * first iteration, so only the first triplet of the lower-cased sequence
   * is looked up; on the empty string it returns None, which counts as false.
   */
  function FirstTripletIsName(s: string): (r: bool)
    ensures r <==> |s| >= 3 && Lower(s)[..3] in AminoNames
  {
    var chunks := Triplets(Lower(s));
    TripletsShape(Lower(s));
    if |chunks| > 0 && chunks[0] in AminoNames then
      NameRoundTrip(chunks[0]);
      true
    else
      false
  }

  /** `is_amino_acid_three_letter`, with its loop and early returns. */
  method IsAminoAcidThreeLetter(s: string) returns (r: bool)
    ensures r == FirstTripletIsName(s)
  {
    var low := Lower(s);
    var seq3 := Triplets(low);
    for k := 0 to |seq3|
      // the body returns on every path, so the loop never reaches k == 1
      invariant k == 0
    {
      if seq3[k] !in AminoNames {
        return false;
      }
      return true;
    }
    return false;
  }

  /**
   * The advisory of one-letter input: every sequence has a length divisible
   * by three and passes `is_amino_acid_three_letter` (vacuously true when
   * there is no sequence).
   */
  predicate Advisory(seqs: seq<string>) {
    && (forall i :: 0 <= i < |seqs| ==> IsLengthDivisibleBy3(seqs[i]))
    && (forall i :: 0 <= i < |seqs| ==> FirstTripletIsName(seqs[i]))
  }

  /** Every sequence upper-cased. */
  function UpperAll(seqs: seq<string>): seq<string> {
    seq(|seqs|, i requires 0 <= i < |seqs| => Upper(seqs[i]))
  }

  /**
   * Format 1: the upper-cased sequences, or an InvalidResidue error for the
   * first character (in reading order over all sequences) that is not a
   * one-letter code.
   */
  function NormalizeOneLetter(seqs: seq<string>): (r: Result<Normalized, Error>)
    ensures r.Ok? ==> |r.value.seqs| == |seqs|
    ensures r.Ok? ==> forall i :: 0 <= i < |seqs| ==> IsCanonical(r.value.seqs[i])
    ensures r.Err? ==> r.error.InvalidResidue? && |r.error.token| == 1 && !IsCode(r.error.token[0])
  {
    var ups := UpperAll(seqs);
    match FirstFailure(ups, AllResidueLetters)
    case Some(i) =>
      var j := FirstFailure(ups[i], IsResidueLetter).value;
      ResidueLetterIsCode(ups[i][j]);
      Err(InvalidResidue([ups[i][j]]))
    case None =>
      assert forall i :: 0 <= i < |seqs| ==> IsCanonical(ups[i]) by {
        forall i, k | 0 <= i < |seqs| && 0 <= k < |ups[i]| ensures IsCode(ups[i][k]) {
          assert AllResidueLetters(ups[i]);
          ResidueLetterIsCode(ups[i][k]);
        }
      }
      Ok(Normalized(ups, Advisory(seqs)))
  }

  /** The one-letter codes of a list of lower-case three-letter keys. */
  function OneLetterCodes(names: seq<string>): (r: string)
    requires forall k :: 0 <= k < |names| ==> names[k] in AminoNames
    ensures IsCanonical(r)
  {
    var r := seq(|names|, k requires 0 <= k < |names| => AminoNames[names[k]]);
    assert forall k :: 0 <= k < |r| ==> IsCode(r[k]) by {
      forall k | 0 <= k < |r| ensures IsCode(r[k]) {
        NameRoundTrip(names[k]);
      }
    }
    r
  }

  /** Chunks of a lower-cased string contain no upper-case letter. */
  lemma TripletsOfLowerHaveNoCapitals(s: string, k: nat)
    requires k < |Triplets(Lower(s))|
    ensures forall m :: 0 <= m < |Triplets(Lower(s))[k]| ==> !('A' <= Triplets(Lower(s))[k][m] <= 'Z')
  {
    forall m | 0 <= m < |Triplets(Lower(s))[k]| ensures !('A' <= Triplets(Lower(s))[k][m] <= 'Z') {
      assert Triplets(Lower(s))[k][m] == Lower(s)[3 * k + m];
      CaseMappings(s[3 * k + m]);
    }
  }

  /** A chunk without capitals that the validator accepts is a three-letter key. */
  lemma ValidChunkIsName(t: string)
    requires IsAminoAcid(t)
    requires forall m :: 0 <= m < |t| ==> !('A' <= t[m] <= 'Z')
    ensures t in AminoNames
  {
  }

  /** The chunks of a lower-cased string that all pass the validator are all three-letter keys. */
  lemma ValidChunksAreNames(s: string)
    requires forall k :: 0 <= k < |Triplets(Lower(s))| ==> IsAminoAcid(Triplets(Lower(s))[k])
    ensures forall k :: 0 <= k < |Triplets(Lower(s))| ==> Triplets(Lower(s))[k] in AminoNames
  {
    forall k | 0 <= k < |Triplets(Lower(s))| ensures Triplets(Lower(s))[k] in AminoNames {
      TripletsOfLowerHaveNoCapitals(s, k);
      ValidChunkIsName(Triplets(Lower(s))[k]);
    }
  }

  /**
   * Format 3 on one sequence: lower-case it, cut it into triplets, fail at
   * the first triplet that is not a code, else map each triplet to its
   * one-letter code.
   */
  function DecodeThreeLetter(s: string): (r: Result<string, Error>)
    ensures r.Ok? ==> IsCanonical(r.value)
    ensures r.Err? ==> r.error.InvalidResidue? && !IsAminoAcid(r.error.token)
  {
    var chunks := Triplets(Lower(s));
    match FirstFailure(chunks, IsAminoAcid)
    case Some(k) => Err(InvalidResidue(chunks[k]))
    case None =>
      ValidChunksAreNames(s);
      Ok(OneLetterCodes(chunks))
  }

  predicate DecodesAsThreeLetter(s: string) {
    DecodeThreeLetter(s).Ok?
  }

  /** The decoded sequences, when every one of them decodes. */
  function DecodeAll(seqs: seq<string>): seq<string>
    requires forall i :: 0 <= i < |seqs| ==> DecodesAsThreeLetter(seqs[i])
  {
    seq(|seqs|, i requires 0 <= i < |seqs| && DecodesAsThreeLetter(seqs[i]) => DecodeThreeLetter(seqs[i]).value)
  }

  /** Format 3: every sequence decoded, or the error of the first one that does not decode. */
  function NormalizeThreeLetter(seqs: seq<string>): (r: Result<Normalized, Error>)
    ensures r.Ok? ==> |r.value.seqs| == |seqs| && !r.value.advisory
    ensures r.Ok? ==> forall i :: 0 <= i < |seqs| ==> IsCanonical(r.value.seqs[i])
    ensures r.Err? ==> r.error.InvalidResidue? && !IsAminoAcid(r.error.token)
  {
    match FirstFailure(seqs, DecodesAsThreeLetter)
    case Some(i) => Err(DecodeThreeLetter(seqs[i]).error)
    case None => Ok(Normalized(DecodeAll(seqs), false))
  }

  /**
   * `name_transform`. On success there is one canonical sequence per input
   * sequence, each made only of one-letter codes.
   */
  function Normalize(seqs: seq<string>, letterFormat: int): (r: Result<Normalized, Error>)
    ensures r.Ok? ==> |r.value.seqs| == |seqs|
    ensures r.Ok? ==> forall i :: 0 <= i < |seqs| ==> IsCanonical(r.value.seqs[i])
    ensures r.Ok? && r.value.advisory ==> letterFormat == 1
    ensures r.Err? ==> r.error.InvalidResidue? || r.error == UnsupportedFormat(letterFormat)
  {
    if letterFormat == 1 then
      NormalizeOneLetter(seqs)
    else if letterFormat == 3 then
      NormalizeThreeLetter(seqs)
    else
      Err(UnsupportedFormat(letterFormat))
  }

  /**
   * `name_transform` as the tool runs it: loops over the sequences and
   * their characters (or triplets), returning at the first invalid one.
   */
  method NameTransform(seqs: seq<string>, letterFormat: int) returns (r: Result<Normalized, Error>)
    ensures r == Normalize(seqs, letterFormat)
  {
    if letterFormat == 1 {
      r := TransformOneLetter(seqs);
    } else if letterFormat == 3 {
      r := TransformThreeLetter(seqs);
    } else {
      r := Err(UnsupportedFormat(letterFormat));
    }
  }

  /** The `letter_format == 1` branch of `name_transform`. */
  method TransformOneLetter(seqs: seq<string>) returns (r: Result<Normalized, Error>)
    ensures r == Normalize(seqs, 1)
  {
    var result: seq<string> := [];
    var multipleOfThree: seq<bool> := [];
    var testThreeLetters: seq<bool> := [];
    for i := 0 to |seqs|
      invariant |result| == |multipleOfThree| == |testThreeLetters| == i
      invariant forall k :: 0 <= k < i ==>
        && result[k] == Upper(seqs[k]) && AllResidueLetters(Upper(seqs[k]))
        && multipleOfThree[k] == IsLengthDivisibleBy3(seqs[k])
        && testThreeLetters[k] == FirstTripletIsName(seqs[k])
    {
      multipleOfThree := multipleOfThree + [IsLengthDivisibleBy3(seqs[i])];
      var looksThree := IsAminoAcidThreeLetter(seqs[i]);
      testThreeLetters := testThreeLetters + [looksThree];
      var s := Upper(seqs[i]);
      var bad := FirstInvalidLetter(s);
      if bad.Some? {
        OneLetterErrorAt(seqs, i, bad.value);
        return Err(InvalidResidue([s[bad.value]]));
      }
      result := result + [s];
    }
    OneLetterLoopResult(seqs, result, multipleOfThree, testThreeLetters);
    return Ok(Normalized(result, All(multipleOfThree) && All(testThreeLetters)));
  }

  /** What the format-1 loop has built once every sequence passed is the result Normalize specifies. */
  lemma OneLetterLoopResult(seqs: seq<string>, result: seq<string>, multipleOfThree: seq<bool>, testThreeLetters: seq<bool>)
    requires |result| == |multipleOfThree| == |testThreeLetters| == |seqs|
    requires forall k :: 0 <= k < |seqs| ==> result[k] == Upper(seqs[k])
    requires forall k :: 0 <= k < |seqs| ==> AllResidueLetters(Upper(seqs[k]))
    requires forall k :: 0 <= k < |seqs| ==> multipleOfThree[k] == IsLengthDivisibleBy3(seqs[k])
    requires forall k :: 0 <= k < |seqs| ==> testThreeLetters[k] == FirstTripletIsName(seqs[k])
    ensures Normalize(seqs, 1) == Ok(Normalized(result, All(multipleOfThree) && All(testThreeLetters)))
  {
    assert result == UpperAll(seqs);
    assert All(multipleOfThree) && All(testThreeLetters) <==> Advisory(seqs);
    OneLetterSuccess(seqs);
  }

  /** The inner loop of the format-1 branch: the position of the first character that is not a code. */
  method FirstInvalidLetter(s: string) returns (bad: Option<nat>)
    ensures bad.None? <==> AllResidueLetters(s)
    ensures bad.Some? ==> bad.value < |s| && !IsResidueLetter(s[bad.value])
    ensures bad.Some? ==> forall m :: 0 <= m < bad.value ==> IsResidueLetter(s[m])
  {
    for j := 0 to |s|
      invariant forall m :: 0 <= m < j ==> IsResidueLetter(s[m])
    {
      if !IsAminoAcid([s[j]]) {
        return Some(j);
      }
    }
    return None;
  }

  /** Format 1 succeeds with the upper-cased sequences when every upper-cased character is a code. */
  lemma OneLetterSuccess(seqs: seq<string>)
    requires forall k :: 0 <= k < |seqs| ==> AllResidueLetters(Upper(seqs[k]))
    ensures Normalize(seqs, 1) == Ok(Normalized(UpperAll(seqs), Advisory(seqs)))
  {
    assert FirstFailure(UpperAll(seqs), AllResidueLetters).None?;
  }

  /** The `letter_format == 3` branch of `name_transform`. */
  method TransformThreeLetter(seqs: seq<string>) returns (r: Result<Normalized, Error>)
    ensures r == Normalize(seqs, 3)
  {
    var result: seq<string> := [];
    for i := 0 to |seqs|
      invariant |result| == i
      invariant forall k :: 0 <= k < i ==> DecodeThreeLetter(seqs[k]) == Ok(result[k])
    {
      var low := Lower(seqs[i]);
      var seq3 := Triplets(low);
      var bad := FindInvalidTriplet(seq3);
      if bad.Some? {
        ThreeLetterErrorAt(seqs, i, bad.value);
        return Err(InvalidResidue(seq3[bad.value]));
      }
      DecodesWhenTripletsValid(seqs[i]);
      var transformed := OneLetterCodes(seq3);
      result := result + [transformed];
    }
    ThreeLetterLoopResult(seqs, result);
    return Ok(Normalized(result, false));
  }

  /** What the format-3 loop has built once every sequence decoded is the result Normalize specifies. */
  lemma ThreeLetterLoopResult(seqs: seq<string>, result: seq<string>)
    requires |result| == |seqs|
    requires forall k :: 0 <= k < |seqs| ==> DecodeThreeLetter(seqs[k]) == Ok(result[k])
    ensures Normalize(seqs, 3) == Ok(Normalized(result, false))
  {
    assert result == DecodeAll(seqs);
    ThreeLetterSuccess(seqs);
  }

  /** A sequence whose triplets are all three-letter codes decodes to their one-letter codes. */
  lemma DecodesWhenTripletsValid(s: string)
    requires forall k :: 0 <= k < |Triplets(Lower(s))| ==> IsAminoAcid(Triplets(Lower(s))[k])
    ensures forall k :: 0 <= k < |Triplets(Lower(s))| ==> Triplets(Lower(s))[k] in AminoNames
    ensures DecodeThreeLetter(s) == Ok(OneLetterCodes(Triplets(Lower(s))))
  {
    ValidChunksAreNames(s);
    assert FirstFailure(Triplets(Lower(s)), IsAminoAcid).None?;
  }

  /** The inner loop of the format-3 branch: the position of the first triplet that is not a three-letter code. */
  method FindInvalidTriplet(seq3: seq<string>) returns (bad: Option<nat>)
    ensures bad.None? <==> forall m :: 0 <= m < |seq3| ==> IsAminoAcid(seq3[m])
    ensures bad.Some? ==> bad.value < |seq3| && !IsAminoAcid(seq3[bad.value])
    ensures bad.Some? ==> forall m :: 0 <= m < bad.value ==> IsAminoAcid(seq3[m])
  {
    var j := 0;
    while j < |seq3|
      invariant j <= |seq3|
      invariant forall m :: 0 <= m < j ==> IsAminoAcid(seq3[m])
    {
      if !IsAminoAcid(seq3[j]) {
        return Some(j);
      }
      j := j + 1;
    }
    return None;
  }

  /** Format 3 succeeds with the decoded sequences when every sequence decodes. */
  lemma ThreeLetterSuccess(seqs: seq<string>)
    requires forall k :: 0 <= k < |seqs| ==> DecodesAsThreeLetter(seqs[k])
    ensures Normalize(seqs, 3) == Ok(Normalized(DecodeAll(seqs), false))
  {
    assert FirstFailure(seqs, DecodesAsThreeLetter).None?;
  }

  /** The error NameTransform returns at character j of sequence i is the one Normalize specifies. */
  lemma OneLetterErrorAt(seqs: seq<string>, i: nat, j: nat)
    requires i < |seqs| && j < |seqs[i]|
    requires forall k :: 0 <= k < i ==> AllResidueLetters(Upper(seqs[k]))
    requires forall m :: 0 <= m < j ==> IsResidueLetter(Upper(seqs[i])[m])
    requires !IsResidueLetter(Upper(seqs[i])[j])
    ensures Normalize(seqs, 1) == Err(InvalidResidue([Upper(seqs[i])[j]]))
  {
    var ups := UpperAll(seqs);
    var fi := FirstFailure(ups, AllResidueLetters);
    assert !AllResidueLetters(ups[i]);
    assert fi == Some(i);
    var fj := FirstFailure(ups[i], IsResidueLetter);
    assert fj == Some(j);
  }

  /** The error NameTransform returns at triplet j of sequence i is the one Normalize specifies. */
  lemma ThreeLetterErrorAt(seqs: seq<string>, i: nat, j: nat)
    requires i < |seqs| && j < |Triplets(Lower(seqs[i]))|
    requires forall k :: 0 <= k < i ==> DecodesAsThreeLetter(seqs[k])
    requires forall m :: 0 <= m < j ==> IsAminoAcid(Triplets(Lower(seqs[i]))[m])
    requires !IsAminoAcid(Triplets(Lower(seqs[i]))[j])
    ensures Normalize(seqs, 3) == Err(InvalidResidue(Triplets(Lower(seqs[i]))[j]))
  {
    var chunks := Triplets(Lower(seqs[i]));
    var fj := FirstFailure(chunks, IsAminoAcid);
    assert fj == Some(j);
    assert !DecodesAsThreeLetter(seqs[i]);
    var fi := FirstFailure(seqs, DecodesAsThreeLetter);
    assert fi == Some(i);
  }

  /** A single character passes the validator exactly when it is a one-letter code. */
  lemma ResidueLetterIsCode(c: char)
    ensures IsResidueLetter(c) <==> IsCode(c)
  {
    assert [c][0] == c;
  }

  /**
   * Format 1 succeeds exactly when every upper-cased character of every
   * sequence is a one-letter code, and then returns the upper-cased
   * sequences, same count, same order, same lengths.
   */
  lemma OneLetterFormatSucceedsIff(seqs: seq<string>)
    ensures Normalize(seqs, 1).Ok? <==>
      forall i, j :: 0 <= i < |seqs| && 0 <= j < |seqs[i]| ==> IsCode(UpperChar(seqs[i][j]))
    ensures Normalize(seqs, 1).Ok? ==>
      && |Normalize(seqs, 1).value.seqs| == |seqs|
      && forall i :: 0 <= i < |seqs| ==>
        && |Normalize(seqs, 1).value.seqs[i]| == |seqs[i]|
        && forall j :: 0 <= j < |seqs[i]| ==> Normalize(seqs, 1).value.seqs[i][j] == UpperChar(seqs[i][j])
  {
    var ups := UpperAll(seqs);
    forall c { ResidueLetterIsCode(c); }
    if FirstFailure(ups, AllResidueLetters).Some? {
      var i := FirstFailure(ups, AllResidueLetters).value;
      var j := FirstFailure(ups[i], IsResidueLetter).value;
      assert ups[i][j] == UpperChar(seqs[i][j]);
      assert !IsCode(UpperChar(seqs[i][j]));
    } else {
      forall i, j | 0 <= i < |seqs| && 0 <= j < |seqs[i]| ensures IsCode(UpperChar(seqs[i][j])) {
        assert AllResidueLetters(ups[i]);
        assert IsResidueLetter(ups[i][j]);
      }
    }
  }

  /** Canonical input passes format 1 unchanged; only the advisory is computed. */
  lemma CanonicalOneLetter(seqs: seq<string>)
    requires forall i :: 0 <= i < |seqs| ==> IsCanonical(seqs[i])
    ensures Normalize(seqs, 1) == Ok(Normalized(seqs, Advisory(seqs)))
  {
    forall i, j | 0 <= i < |seqs| && 0 <= j < |seqs[i]| ensures UpperChar(seqs[i][j]) == seqs[i][j] {
      TablesShareKeys(seqs[i][j]);
    }
    OneLetterFormatSucceedsIff(seqs);
    var r := Normalize(seqs, 1).value;
    assert r.seqs == seqs by {
      forall i | 0 <= i < |seqs| ensures r.seqs[i] == seqs[i] {
        assert |r.seqs[i]| == |seqs[i]|;
      }
    }
  }

  /**
   * When format 1 fails, the error names the first character, in reading
   * order over all sequences, whose upper-case form is not a one-letter code.
   */
  lemma OneLetterFormatError(seqs: seq<string>)
    requires Normalize(seqs, 1).Err?
    ensures exists i, j ::
      && 0 <= i < |seqs| && 0 <= j < |seqs[i]|
      && Normalize(seqs, 1).error == InvalidResidue([UpperChar(seqs[i][j])])
      && !IsCode(UpperChar(seqs[i][j]))
      && (forall i', j' :: 0 <= i' < i && 0 <= j' < |seqs[i']| ==> IsCode(UpperChar(seqs[i'][j'])))
      && (forall j' :: 0 <= j' < j ==> IsCode(UpperChar(seqs[i][j'])))
  {
    var ups := UpperAll(seqs);
    var i := FirstFailure(ups, AllResidueLetters).value;
    var j := FirstFailure(ups[i], IsResidueLetter).value;
    assert Normalize(seqs, 1).error == InvalidResidue([UpperChar(seqs[i][j])]);
    ResidueLetterIsCode(ups[i][j]);
    forall i', j' | 0 <= i' < i && 0 <= j' < |seqs[i']| ensures IsCode(UpperChar(seqs[i'][j'])) {
      assert AllResidueLetters(ups[i']);
      assert IsResidueLetter(ups[i'][j']);
      ResidueLetterIsCode(ups[i'][j']);
    }
    forall j' | 0 <= j' < j ensures IsCode(UpperChar(seqs[i][j'])) {
      assert IsResidueLetter(ups[i][j']);
      ResidueLetterIsCode(ups[i][j']);
    }
  }

  /** Cutting into triplets: full chunks first, then a short chunk of |s| % 3 characters if any. */
  lemma TripletsShape(s: string)
    ensures |Triplets(s)| == |s| / 3 + (if |s| % 3 == 0 then 0 else 1)
    ensures forall k :: 0 <= k < |s| / 3 ==> Triplets(s)[k] == s[3 * k .. 3 * k + 3]
    ensures |s| % 3 != 0 ==> Triplets(s)[|s| / 3] == s[3 * (|s| / 3) ..]
  {
  }

  /**
   * Format 3 decodes a sequence exactly when its length is a multiple of
   * three and every triplet of its lower-case form is a three-letter key (so
   * a short trailing chunk of one or two characters always fails); the
   * result then has one code per triplet, the table image of that triplet.
   */
  lemma ThreeLetterDecodeIff(s: string)
    ensures DecodeThreeLetter(s).Ok? <==>
      |s| % 3 == 0 && forall k :: 0 <= k < |s| / 3 ==> Lower(s)[3 * k .. 3 * k + 3] in AminoNames
    ensures DecodeThreeLetter(s).Ok? ==>
      && |DecodeThreeLetter(s).value| == |s| / 3
      && forall k :: 0 <= k < |s| / 3 ==> DecodeThreeLetter(s).value[k] == AminoNames[Lower(s)[3 * k .. 3 * k + 3]]
  {
    if |s| % 3 != 0 {
      ShortTailFails(s);
    } else {
      WholeTripletsDecode(s);
    }
  }

  /** A trailing chunk of one or two characters is never a residue code, so the sequence does not decode. */
  lemma ShortTailFails(s: string)
    requires |s| % 3 != 0
    ensures DecodeThreeLetter(s).Err?
  {
    var chunks := Triplets(Lower(s));
    TripletsShape(Lower(s));
    var last := |s| / 3;
    assert !IsAminoAcid(chunks[last]) by {
      if |chunks[last]| == 1 {
        TripletsOfLowerHaveNoCapitals(s, last);
        TablesShareKeys(chunks[last][0]);
      }
    }
  }

  /** ThreeLetterDecodeIff for a length that is a multiple of three. */
  lemma WholeTripletsDecode(s: string)
    requires |s| % 3 == 0
    ensures DecodeThreeLetter(s).Ok? <==>
      forall k :: 0 <= k < |s| / 3 ==> Lower(s)[3 * k .. 3 * k + 3] in AminoNames
    ensures DecodeThreeLetter(s).Ok? ==>
      && |DecodeThreeLetter(s).value| == |s| / 3
      && forall k :: 0 <= k < |s| / 3 ==> DecodeThreeLetter(s).value[k] == AminoNames[Lower(s)[3 * k .. 3 * k + 3]]
  {
    var low := Lower(s);
    var chunks := Triplets(low);
    TripletsShape(low);
    assert forall k :: 0 <= k < |s| / 3 ==> chunks[k] == low[3 * k .. 3 * k + 3];
    if forall k :: 0 <= k < |s| / 3 ==> low[3 * k .. 3 * k + 3] in AminoNames {
      assert forall k :: 0 <= k < |chunks| ==> IsAminoAcid(chunks[k]);
      assert DecodeThreeLetter(s) == Ok(OneLetterCodes(chunks));
    } else {
      var k :| 0 <= k < |s| / 3 && low[3 * k .. 3 * k + 3] !in AminoNames;
      assert !IsAminoAcid(chunks[k]);
    }
  }

  /**
   * The error of a format-3 normalisation is the first triplet, of the first
   * sequence that does not decode, that the validator rejects.
   */
  lemma ThreeLetterFormatError(seqs: seq<string>)
    requires Normalize(seqs, 3).Err?
    ensures exists i, k ::
      && 0 <= i < |seqs| && 0 <= k < |Triplets(Lower(seqs[i]))|
      && Normalize(seqs, 3).error == InvalidResidue(Triplets(Lower(seqs[i]))[k])
      && !IsAminoAcid(Triplets(Lower(seqs[i]))[k])
      && (forall i' :: 0 <= i' < i ==> DecodeThreeLetter(seqs[i']).Ok?)
      && (forall k' :: 0 <= k' < k ==> IsAminoAcid(Triplets(Lower(seqs[i]))[k']))
  {
    var i := FirstUndecodable(seqs);
    var k := FirstInvalidTriplet(seqs[i]);
  }

  /** The sequence whose error format 3 reports: the first that does not decode. */
  lemma FirstUndecodable(seqs: seq<string>) returns (i: nat)
    requires Normalize(seqs, 3).Err?
    ensures i < |seqs| && DecodeThreeLetter(seqs[i]).Err?
    ensures Normalize(seqs, 3).error == DecodeThreeLetter(seqs[i]).error
    ensures forall i' :: 0 <= i' < i ==> DecodeThreeLetter(seqs[i']).Ok?
  {
    i := FirstFailure(seqs, DecodesAsThreeLetter).value;
    assert forall i' :: 0 <= i' < i ==> DecodesAsThreeLetter(seqs[i']);
  }

  /** The triplet whose error decoding reports: the first that is not a three-letter name. */
  lemma FirstInvalidTriplet(s: string) returns (k: nat)
    requires DecodeThreeLetter(s).Err?
    ensures k < |Triplets(Lower(s))| && DecodeThreeLetter(s).error == InvalidResidue(Triplets(Lower(s))[k])
    ensures !IsAminoAcid(Triplets(Lower(s))[k])
    ensures forall k' :: 0 <= k' < k ==> IsAminoAcid(Triplets(Lower(s))[k'])
  {
    k := FirstFailure(Triplets(Lower(s)), IsAminoAcid).value;
  }

  /** A format other than 1 or 3 is the only source of UnsupportedFormat, and it is reported whatever the sequences. */
  lemma UnsupportedFormatIff(seqs: seq<string>, letterFormat: int)
    ensures Normalize(seqs, letterFormat) == Err(UnsupportedFormat(letterFormat)) <==> letterFormat != 1 && letterFormat != 3
    ensures Normalize(seqs, letterFormat).Err? && Normalize(seqs, letterFormat).error.UnsupportedFormat? ==>
      letterFormat != 1 && letterFormat != 3
  {
    if letterFormat == 1 && Normalize(seqs, 1).Err? {
      OneLetterFormatError(seqs);
    }
    if letterFormat == 3 && Normalize(seqs, 3).Err? {
      ThreeLetterFormatError(seqs);
    }
  }

  /**
   * The one-letter advisory fires exactly when every sequence has a length
   * that is a positive multiple of three and its first three characters,
   * lower-cased, are a three-letter key; it never changes the sequences.
   */
  lemma AdvisoryIff(seqs: seq<string>)
    requires Normalize(seqs, 1).Ok?
    ensures Normalize(seqs, 1).value.advisory <==>
      forall i :: 0 <= i < |seqs| ==>
        |seqs[i]| % 3 == 0 && |seqs[i]| >= 3 && Lower(seqs[i])[..3] in AminoNames
    ensures Normalize(seqs, 1).value.seqs == UpperAll(seqs)
  {
    forall i | 0 <= i < |seqs|
      ensures IsLengthDivisibleBy3(seqs[i]) && FirstTripletIsName(seqs[i]) <==>
        |seqs[i]| % 3 == 0 && |seqs[i]| >= 3 && Lower(seqs[i])[..3] in AminoNames
    {
      TripletsShape(Lower(seqs[i]));
      if |seqs[i]| >= 3 {
        assert Triplets(Lower(seqs[i]))[0] == Lower(seqs[i])[..3];
      }
    }
  }

  /** The triplets of "ALAAAA" lower-cased: "ala", a three-letter code, and "aaa", which is none. */
  lemma AlaaaaTriplets()
    ensures Triplets(Lower("ALAAAA")) == ["ala", "aaa"]
    ensures "ala" in AminoNames && "aaa" !in AminoNames
  {
    assert Lower("ALAAAA") == "alaaaa";
    TripletsShape("alaaaa");
    assert "alaaaa"[0..3] == "ala" && "alaaaa"[3..6] == "aaa";
  }

  /**
   * `is_amino_acid_three_letter` looks only at the first triplet: "ALAAAA"
   * is a valid one-letter sequence whose advisory fires although its second
   * triplet "aaa" is no three-letter code.
   */
  lemma AdvisoryChecksOnlyFirstTriplet()
    ensures Normalize(["ALAAAA"], 1) == Ok(Normalized(["ALAAAA"], true))
  {
    var s := "ALAAAA";
    AlaaaaTriplets();
    assert Upper(s) == s;
    assert AllResidueLetters(s) by {
      forall k | 0 <= k < |s| ensures IsResidueLetter(s[k]) { assert s[k] == 'A' || s[k] == 'L'; }
    }
    assert FirstTripletIsName(s);
    OneLetterSuccess([s]);
    assert UpperAll([s]) == [s];
  }

  /** "ALA" is a valid one-letter sequence that reads as alanine's three-letter code, so the advisory fires. */
  lemma AlaIsAdvised()
    ensures Normalize(["ALA"], 1) == Ok(Normalized(["ALA"], true))
  {
    var s := "ALA";
    assert Upper(s) == s;
    assert AllResidueLetters(s) by {
      forall k | 0 <= k < |s| ensures IsResidueLetter(s[k]) { assert s[k] == 'A' || s[k] == 'L'; }
    }
    assert Lower(s)[..3] == "ala";
    EntryAla();
    assert FirstTripletIsName(s);
    OneLetterSuccess([s]);
    assert UpperAll([s]) == [s];
  }

  /** The same "ALAAAA" read as three-letter code fails at its second triplet. */
  lemma AlaaaaIsNotThreeLetter()
    ensures Normalize(["ALAAAA"], 3) == Err(InvalidResidue("aaa"))
  {
    AlaaaaTriplets();
    assert !IsAminoAcid("aaa");
    assert IsAminoAcid("ala");
    ThreeLetterErrorAt(["ALAAAA"], 0, 1);
  }

  /**
   * With no sequence at all the advisory fires vacuously; an empty
   * sequence (None in the tool) keeps it off.
   */
  lemma AdvisoryOnEmptyInput()
    ensures Normalize([], 1) == Ok(Normalized([], true))
    ensures Normalize([""], 1) == Ok(Normalized([""], false))
  {
    OneLetterSuccess([]);
    OneLetterSuccess([""]);
    assert UpperAll([""]) == [""];
  }

  /** Any spelling of alanine's three-letter code whose lower-case form is "ala" decodes to "A". */
  lemma AlaDecodes(s: string)
    requires Lower(s) == "ala"
    ensures DecodeThreeLetter(s) == Ok("A")
  {
    TripletsShape("ala");
    assert "ala"[0..3] == "ala";
    assert Triplets("ala") == ["ala"];
    assert FirstFailure(["ala"], IsAminoAcid) == None;
    assert OneLetterCodes(["ala"]) == "A";
  }

  /** Three-letter input is case-insensitive: "Ala" and "ala" both normalise to "A". */
  lemma ThreeLetterExamples()
    ensures Normalize(["Ala"], 3) == Ok(Normalized(["A"], false))
    ensures Normalize(["ala"], 3) == Ok(Normalized(["A"], false))
  {
    assert Lower("Ala") == "ala";
    assert Lower("ala") == "ala";
    AlaDecodes("Ala");
    AlaDecodes("ala");
    ThreeLetterSuccess(["Ala"]);
    ThreeLetterSuccess(["ala"]);
    assert DecodeAll(["Ala"]) == ["A"];
    assert DecodeAll(["ala"]) == ["A"];
  }

  /** "X" is no residue. */
  lemma InvalidLetterExample()
    ensures Normalize(["X"], 1) == Err(InvalidResidue("X"))
  {
    assert Upper("X") == "X";
    assert UpperAll(["X"]) == ["X"];
    assert !IsResidueLetter('X');
  }

  /** Lower-case one-letter input is upper-cased. */
  lemma LowerCaseLettersExample()
    ensures Normalize(["a", "c"], 1) == Ok(Normalized(["A", "C"], false))
  {
    assert Upper("a") == "A" && Upper("c") == "C";
    assert UpperAll(["a", "c"]) == ["A", "C"];
    assert IsResidueLetter('A') && IsResidueLetter('C');
    assert !IsLengthDivisibleBy3(["a", "c"][0]);
    OneLetterSuccess(["a", "c"]);
  }
}
