/**
 * The round trip between the two encodings: spelling canonical one-letter
 * sequences in three-letter code (`one_letter_to_three`) and normalising
 * the result as three-letter input (`name_transform` with format 3) gives
 * the sequences back.
 */
module RoundTrip {
  import opened Wrappers
  import opened Residues
  import N = Normalizer
  import P = Procedures
  import D = Dispatcher

  /** Lower-casing commutes with slicing. */
  lemma LowerSlice(t: string, i: nat, j: nat)
    requires i <= j <= |t|
    ensures Lower(t)[i..j] == Lower(t[i..j])
  {
  }

  /**
   * The three-letter spelling of a canonical sequence is three times as
   * long, and decoding it as format-3 input gives the sequence back.
   */
  lemma ThreeLetterRoundTrip(s: string)
    requires IsCanonical(s)
    ensures forall k :: 0 <= k < |s| ==> UpperChar(s[k]) in AminoShortNames
    ensures |P.ThreeLetterCode(s)| == 3 * |s|
    ensures N.DecodeThreeLetter(P.ThreeLetterCode(s)) == Ok(s)
  {
    ThreeLetterChunks(s);
    DecodesTo(P.ThreeLetterCode(s), s);
  }

  /** A string whose k-th lower-cased triplet names the k-th residue of `s` decodes to `s`. */
  lemma DecodesTo(t: string, s: string)
    requires |t| == 3 * |s|
    requires forall k :: 0 <= k < |s| ==>
      && Lower(t)[3 * k .. 3 * k + 3] in AminoNames
      && AminoNames[Lower(t)[3 * k .. 3 * k + 3]] == s[k]
    ensures N.DecodeThreeLetter(t) == Ok(s)
  {
    assert |t| / 3 == |s|;
    N.ThreeLetterDecodeIff(t);
    var d := N.DecodeThreeLetter(t).value;
    assert d == s by {
      assert |d| == |s|;
      assert forall k :: 0 <= k < |s| ==> d[k] == s[k];
    }
  }

  /** Each triplet of the three-letter spelling, lower-cased, is the key of its own residue. */
  lemma ThreeLetterChunks(s: string)
    requires IsCanonical(s)
    ensures forall k :: 0 <= k < |s| ==> UpperChar(s[k]) in AminoShortNames
    ensures |P.ThreeLetterCode(s)| == 3 * |s|
    ensures forall k :: 0 <= k < |s| ==>
      && Lower(P.ThreeLetterCode(s))[3 * k .. 3 * k + 3] in AminoNames
      && AminoNames[Lower(P.ThreeLetterCode(s))[3 * k .. 3 * k + 3]] == s[k]
  {
    forall k | 0 <= k < |s| ensures UpperChar(s[k]) == s[k] {
      TablesShareKeys(s[k]);
    }
    var t := P.ThreeLetterCode(s);
    P.ThreeLetterCodeShape(s);
    forall k | 0 <= k < |s|
      ensures Lower(t)[3 * k .. 3 * k + 3] in AminoNames
      ensures AminoNames[Lower(t)[3 * k .. 3 * k + 3]] == s[k]
    {
      LowerSlice(t, 3 * k, 3 * k + 3);
      ShortNameRoundTrip(s[k]);
    }
  }

  /** Every sequence spelled in three-letter code. */
  function ThreeLetterCodes(seqs: seq<string>): (r: seq<string>)
    requires forall i :: 0 <= i < |seqs| ==> IsCanonical(seqs[i])
    ensures |r| == |seqs|
  {
    seq(|seqs|, i requires 0 <= i < |seqs| =>
      ThreeLetterRoundTrip(seqs[i]);
      P.ThreeLetterCode(seqs[i]))
  }

  /**
   * Normalising the three-letter spellings of canonical sequences as
   * format 3 succeeds and returns the sequences themselves, with no advisory.
   */
  lemma NormalizeRoundTrip(seqs: seq<string>)
    requires forall i :: 0 <= i < |seqs| ==> IsCanonical(seqs[i])
    ensures N.Normalize(ThreeLetterCodes(seqs), 3) == Ok(N.Normalized(seqs, false))
  {
    var t := ThreeLetterCodes(seqs);
    forall i | 0 <= i < |t| ensures N.DecodeThreeLetter(t[i]) == Ok(seqs[i]) {
      ThreeLetterRoundTrip(seqs[i]);
    }
    assert forall i :: 0 <= i < |t| ==> N.DecodesAsThreeLetter(t[i]);
    assert N.DecodeAll(t) == seqs;
  }

  /**
   * Through the entry point: whatever normalises, asking for
   * `one_letter_to_three` and feeding the answer back as format-3 input
   * returns the normalised sequences; for one-letter input these are the
   * input sequences upper-cased.
   */
  lemma AnalysisRoundTrip(seqs: seq<string>, cellType: Option<string>, letterFormat: int)
    requires D.Analyze(seqs, "one_letter_to_three", cellType, letterFormat).result.Ok?
    ensures D.Analyze(seqs, "one_letter_to_three", cellType, letterFormat).result.value.ThreeLetterSeqs?
    ensures N.Normalize(D.Analyze(seqs, "one_letter_to_three", cellType, letterFormat).result.value.seqs, 3)
      == Ok(N.Normalized(N.Normalize(seqs, letterFormat).value.seqs, false))
    ensures letterFormat == 1 ==> N.Normalize(seqs, letterFormat).value.seqs == N.UpperAll(seqs)
  {
    var n := N.Normalize(seqs, letterFormat).value;
    assert D.Lookup("one_letter_to_three") == Some(D.OneLetterToThree);
    var t := D.Analyze(seqs, "one_letter_to_three", cellType, letterFormat).result.value.seqs;
    assert t == ThreeLetterCodes(n.seqs);
    NormalizeRoundTrip(n.seqs);
  }
}
