/** The residue-code validator `is_amino_acid`. */
module Validator {
  import opened Residues

  /**
   * Whether `token` is a residue code. The check is case-sensitive: a
   * one-character token must be an upper-case one-letter code, a
   * three-character token a lower-case three-letter code; no other length
   * is a code.
   */
  function IsAminoAcid(token: string): (r: bool)
    ensures r ==> |token| == 1 || |token| == 3
    ensures r && |token| == 1 ==> 'A' <= token[0] <= 'Z'
    ensures r && |token| == 3 ==> forall k | 0 <= k < 3 :: !('A' <= token[k] <= 'Z')
  {
    if |token| == 1 then
      if token[0] in AminoShortNames then
        CodeIsCapital(token[0]);
        true
      else
        false
    else if |token| == 3 then
      if token in AminoNames then
        NameHasNoCapitals(token);
        true
      else
        false
    else
      false
  }

  /**
   * The tokens IsAminoAcid accepts are exactly the images of the twenty
   * residues: a residue's one-letter code as a string, or its three-letter
   * code in lower case.
   */
  lemma IsAminoAcidIffResidueToken(token: string)
    ensures IsAminoAcid(token) <==>
      exists c :: c in AminoShortNames && (token == [c] || token == Lower(AminoShortNames[c]))
  {
    if IsAminoAcid(token) {
      if |token| == 1 {
        assert token == [token[0]];
      } else {
        NameRoundTrip(token);
        var c := AminoNames[token];
        assert token == Lower(AminoShortNames[c]);
      }
    }
    if exists c :: c in AminoShortNames && (token == [c] || token == Lower(AminoShortNames[c])) {
      var c :| c in AminoShortNames && (token == [c] || token == Lower(AminoShortNames[c]));
      ShortNameRoundTrip(c);
    }
  }

  /**
   * The check is case-sensitive: for every residue, its one-letter code and
   * its lower-case three-letter code pass, while the lower-case letter and
   * the three-letter code as the table spells it ("Ala") do not.
   */
  lemma IsAminoAcidIsCaseSensitive(c: char)
    requires c in AminoShortNames
    ensures IsAminoAcid([c]) && IsAminoAcid(Lower(AminoShortNames[c]))
    ensures !IsAminoAcid([LowerChar(c)]) && !IsAminoAcid(AminoShortNames[c])
  {
    CaseMappings(c);
    TablesShareKeys(c);
    TablesShareKeys(LowerChar(c));
    ShortNameRoundTrip(c);
    if AminoShortNames[c] in AminoNames {
      NameRoundTrip(AminoShortNames[c]);
    }
  }
}
