/**
 * The residue tables of the analysis tool: the twenty standard amino acids
 * by one-letter and three-letter code, their weights, their elemental
 * composition, and the three per-organism codon tables, together with the
 * ASCII case mappings that the tool applies to its input.
 */
module Residues {

  /** One-letter code to three-letter code, in the table's own key order. */
  const AminoShortNames: map<char, string> := map[
    'A' := "Ala", 'R' := "Arg", 'N' := "Asn", 'D' := "Asp", 'V' := "Val",
    'H' := "His", 'G' := "Gly", 'Q' := "Gln", 'E' := "Glu", 'I' := "Ile",
    'L' := "Leu", 'K' := "Lys", 'M' := "Met", 'P' := "Pro", 'S' := "Ser",
    'Y' := "Tyr", 'T' := "Thr", 'W' := "Trp", 'F' := "Phe", 'C' := "Cys"]

  /** The keys of AminoShortNames in insertion order (the order of a Python dict). */
  const Codes: seq<char> := "ARNDVHGQEILKMPSYTWFC"

  /** Lower-case three-letter code to one-letter code. */
  const AminoNames: map<string, char> := map[
    "ala" := 'A', "arg" := 'R', "asn" := 'N', "asp" := 'D', "val" := 'V',
    "his" := 'H', "gly" := 'G', "gln" := 'Q', "glu" := 'E', "ile" := 'I',
    "leu" := 'L', "lys" := 'K', "met" := 'M', "pro" := 'P', "ser" := 'S',
    "tyr" := 'Y', "thr" := 'T', "trp" := 'W', "phe" := 'F', "cys" := 'C']

  /**
   * Residue weights in hundredths of a dalton: every weight in the table
   * has exactly two decimals, so 89.09 Da is 8909.
   */
  const AminoWeights: map<char, nat> := map[
    'A' := 8909, 'R' := 17420, 'N' := 13212, 'D' := 13310, 'C' := 12116,
    'E' := 14713, 'Q' := 14615, 'G' := 7507, 'H' := 15516, 'I' := 13118,
    'L' := 13118, 'K' := 14619, 'M' := 14921, 'F' := 16519, 'P' := 11513,
    'S' := 10509, 'T' := 11912, 'W' := 20423, 'Y' := 18119, 'V' := 11715]

  /**
   * Atom counts (C, H, N, O, S) per residue, as the table has them: the
   * threonine row carries six components where every other row has five.
   */
  const AminoBrutto: map<char, seq<nat>> := map[
    'A' := [3, 7, 1, 2, 0], 'R' := [6, 14, 4, 2, 0], 'N' := [4, 8, 2, 3, 0],
    'D' := [4, 7, 1, 4, 0], 'V' := [5, 11, 1, 2, 0], 'H' := [6, 9, 3, 2, 0],
    'G' := [2, 5, 1, 2, 0], 'Q' := [5, 10, 2, 3, 0], 'E' := [5, 9, 1, 4, 0],
    'I' := [6, 13, 1, 2, 0], 'L' := [6, 13, 1, 2, 0], 'K' := [6, 14, 2, 2, 0],
    'M' := [5, 11, 1, 2, 1], 'P' := [5, 9, 1, 2, 0], 'S' := [3, 7, 1, 3, 0],
    'Y' := [9, 11, 1, 3, 0], 'T' := [4, 9, 11, 1, 3, 0], 'W' := [11, 12, 2, 2, 0],
    'F' := [9, 11, 1, 2, 0], 'C' := [3, 7, 1, 2, 1]]

  /** The element symbols of a brutto formula, in the order of its components. */
  const Elements: seq<char> := "CHNOS"

  const EcoliTriplets: map<char, string> := map[
    'A' := "GCG", 'C' := "TGC", 'D' := "GAT", 'E' := "GAA", 'F' := "TTT",
    'G' := "GGC", 'H' := "CAT", 'I' := "ATT", 'K' := "AAA", 'L' := "CTG",
    'M' := "ATG", 'N' := "AAC", 'P' := "CCG", 'Q' := "CAG", 'R' := "CGT",
    'S' := "AGC", 'T' := "ACC", 'V' := "GTG", 'W' := "TGG", 'Y' := "TAT"]

  const PpastorisTriplets: map<char, string> := map[
    'A' := "GCT", 'C' := "TGT", 'D' := "GAT", 'E' := "GAA", 'F' := "TTT",
    'G' := "GGT", 'H' := "CAT", 'I' := "ATT", 'K' := "AAG", 'L' := "TTG",
    'M' := "ATG", 'N' := "AAC", 'P' := "CCA", 'Q' := "CAA", 'R' := "AGA",
    'S' := "TCT", 'T' := "ACT", 'V' := "GTT", 'W' := "TGG", 'Y' := "TAC"]

  const MouseTriplets: map<char, string> := map[
    'A' := "GCC", 'C' := "TGC", 'D' := "GAC", 'E' := "GAG", 'F' := "TTC",
    'G' := "GGC", 'H' := "CAC", 'I' := "ATC", 'K' := "AAG", 'L' := "CTG",
    'M' := "ATG", 'N' := "AAC", 'P' := "CCC", 'Q' := "CAG", 'R' := "CGG",
    'S' := "AGC", 'T' := "ACC", 'V' := "GTG", 'W' := "TGG", 'Y' := "TAC"]

  /** A one-letter residue code: a key of AminoShortNames. */
  predicate IsCode(c: char) {
    c in AminoShortNames
  }

  /** Every character of `s` is a one-letter residue code. */
  predicate IsCanonical(s: string) {
    forall k :: 0 <= k < |s| ==> IsCode(s[k])
  }

  /** `str.upper` restricted to ASCII letters. */
  function UpperChar(c: char): char {
    if 'a' <= c <= 'z' then (c as int - 32) as char else c
  }

  /** `str.lower` restricted to ASCII letters. */
  function LowerChar(c: char): char {
    if 'A' <= c <= 'Z' then (c as int + 32) as char else c
  }

  function Upper(s: string): string {
    seq(|s|, k requires 0 <= k < |s| => UpperChar(s[k]))
  }

  function Lower(s: string): string {
    seq(|s|, k requires 0 <= k < |s| => LowerChar(s[k]))
  }

  /** A codon table covers exactly the twenty residues, each with an A/C/G/T triplet. */
  predicate IsCodonTable(t: map<char, string>) {
    && t.Keys == AminoShortNames.Keys
    && forall c | c in t :: |t[c]| == 3 && forall k | 0 <= k < 3 :: t[c][k] in "ACGT"
  }

  /** Codes lists each key of AminoShortNames exactly once. */
  lemma CodesAreTheKeys()
    ensures |Codes| == 20
    ensures forall i, j | 0 <= i < j < |Codes| :: Codes[i] != Codes[j]
    ensures forall c :: c in AminoShortNames <==> c in Codes
  {
  }

  /** Every residue table is keyed by the same twenty one-letter codes, all upper-case letters. */
  lemma TablesShareKeys(c: char)
    ensures c in AminoShortNames <==> c in AminoWeights
    ensures c in AminoShortNames <==> c in AminoBrutto
    ensures c in AminoShortNames <==> c in EcoliTriplets
    ensures c in AminoShortNames <==> c in PpastorisTriplets
    ensures c in AminoShortNames <==> c in MouseTriplets
    ensures c in AminoShortNames ==> 'A' <= c <= 'Z'
  {
    ResidueTablesShareKeys(c);
    EcoliKeys(c);
    PpastorisKeys(c);
    MouseKeys(c);
  }

  /** The weight and brutto tables are keyed by the one-letter codes, all upper-case letters. */
  lemma ResidueTablesShareKeys(c: char)
    ensures c in AminoShortNames <==> c in AminoWeights
    ensures c in AminoShortNames <==> c in AminoBrutto
    ensures c in AminoShortNames ==> 'A' <= c <= 'Z'
  {
  }

  lemma EcoliKeys(c: char)
    ensures c in AminoShortNames <==> c in EcoliTriplets
  {
  }

  lemma PpastorisKeys(c: char)
    ensures c in AminoShortNames <==> c in PpastorisTriplets
  {
  }

  lemma MouseKeys(c: char)
    ensures c in AminoShortNames <==> c in MouseTriplets
  {
  }

  /** The triplets a codon table gives one residue. */
  lemma CodonEntries(c: char)
    requires c in AminoShortNames
    ensures |EcoliTriplets[c]| == 3 && forall k | 0 <= k < 3 :: EcoliTriplets[c][k] in "ACGT"
    ensures |PpastorisTriplets[c]| == 3 && forall k | 0 <= k < 3 :: PpastorisTriplets[c][k] in "ACGT"
    ensures |MouseTriplets[c]| == 3 && forall k | 0 <= k < 3 :: MouseTriplets[c][k] in "ACGT"
  {
    TablesShareKeys(c);
    EcoliEntry(c);
    PpastorisEntry(c);
    MouseEntry(c);
  }

  lemma EcoliEntry(c: char)
    requires c in EcoliTriplets
    ensures |EcoliTriplets[c]| == 3 && forall k | 0 <= k < 3 :: EcoliTriplets[c][k] in "ACGT"
  {
  }

  lemma PpastorisEntry(c: char)
    requires c in PpastorisTriplets
    ensures |PpastorisTriplets[c]| == 3 && forall k | 0 <= k < 3 :: PpastorisTriplets[c][k] in "ACGT"
  {
  }

  lemma MouseEntry(c: char)
    requires c in MouseTriplets
    ensures |MouseTriplets[c]| == 3 && forall k | 0 <= k < 3 :: MouseTriplets[c][k] in "ACGT"
  {
  }

  /** The three organism tables are codon tables in the sense of IsCodonTable. */
  lemma CodonTablesWellFormed()
    ensures IsCodonTable(EcoliTriplets)
    ensures IsCodonTable(PpastorisTriplets)
    ensures IsCodonTable(MouseTriplets)
  {
    EcoliTableWellFormed();
    PpastorisTableWellFormed();
    MouseTableWellFormed();
  }

  lemma EcoliTableWellFormed()
    ensures IsCodonTable(EcoliTriplets)
  {
    forall c ensures c in EcoliTriplets <==> c in AminoShortNames { TablesShareKeys(c); }
    forall c | c in EcoliTriplets
      ensures |EcoliTriplets[c]| == 3 && forall k | 0 <= k < 3 :: EcoliTriplets[c][k] in "ACGT"
    {
      CodonEntries(c);
    }
  }

  lemma PpastorisTableWellFormed()
    ensures IsCodonTable(PpastorisTriplets)
  {
    forall c ensures c in PpastorisTriplets <==> c in AminoShortNames { TablesShareKeys(c); }
    forall c | c in PpastorisTriplets
      ensures |PpastorisTriplets[c]| == 3 && forall k | 0 <= k < 3 :: PpastorisTriplets[c][k] in "ACGT"
    {
      CodonEntries(c);
    }
  }

  lemma MouseTableWellFormed()
    ensures IsCodonTable(MouseTriplets)
  {
    forall c ensures c in MouseTriplets <==> c in AminoShortNames { TablesShareKeys(c); }
    forall c | c in MouseTriplets
      ensures |MouseTriplets[c]| == 3 && forall k | 0 <= k < 3 :: MouseTriplets[c][k] in "ACGT"
    {
      CodonEntries(c);
    }
  }

  /** Every brutto row has five components except threonine's, which has six. */
  lemma BruttoRowLengths(c: char)
    requires c in AminoBrutto
    ensures |AminoBrutto[c]| == if c == 'T' then 6 else 5
  {
  }

  /** Lower-case letters are never upper-case after UpperChar, nor upper-case ones after LowerChar. */
  lemma CaseMappings(c: char)
    ensures !('A' <= LowerChar(c) <= 'Z')
    ensures !('a' <= UpperChar(c) <= 'z')
    ensures 'A' <= c <= 'Z' ==> UpperChar(LowerChar(c)) == c
  {
  }

  /**
   * Lower-casing the three-letter code of a residue gives a key of
   * AminoNames that leads back to the same residue.
   */
  lemma ShortNameRoundTrip(c: char)
    requires c in AminoShortNames
    ensures |AminoShortNames[c]| == 3
    ensures 'A' <= AminoShortNames[c][0] <= 'Z'
    ensures Lower(AminoShortNames[c]) in AminoNames
    ensures AminoNames[Lower(AminoShortNames[c])] == c
  {
    if c == 'A' { EntryAla(); }
    else if c == 'R' { EntryArg(); }
    else if c == 'N' { EntryAsn(); }
    else if c == 'D' { EntryAsp(); }
    else if c == 'V' { EntryVal(); }
    else if c == 'H' { EntryHis(); }
    else if c == 'G' { EntryGly(); }
    else if c == 'Q' { EntryGln(); }
    else if c == 'E' { EntryGlu(); }
    else if c == 'I' { EntryIle(); }
    else if c == 'L' { EntryLeu(); }
    else if c == 'K' { EntryLys(); }
    else if c == 'M' { EntryMet(); }
    else if c == 'P' { EntryPro(); }
    else if c == 'S' { EntrySer(); }
    else if c == 'Y' { EntryTyr(); }
    else if c == 'T' { EntryThr(); }
    else if c == 'W' { EntryTrp(); }
    else if c == 'F' { EntryPhe(); }
    else { EntryCys(); }
  }

  /** Every key of AminoNames is the lower-cased three-letter code of its residue. */
  lemma NameRoundTrip(t: string)
    requires t in AminoNames
    ensures |t| == 3
    ensures AminoNames[t] in AminoShortNames
    ensures Lower(AminoShortNames[AminoNames[t]]) == t
    ensures forall k | 0 <= k < |t| :: !('A' <= t[k] <= 'Z')
  {
    NameKeys(t);
    if t == "ala"
      || t == "arg"
      || t == "asn"
      || t == "asp"
      || t == "val"
      || t == "his"
      || t == "gly"
      || t == "gln"
      || t == "glu"
      || t == "ile" {
      FirstNames(t);
    } else {
      LastNames(t);
    }
    LowerHasNoCapitals(AminoShortNames[AminoNames[t]]);
  }

  /** The first ten keys of AminoNames lead back to their own three-letter codes. */
  lemma FirstNames(t: string)
    requires t == "ala"
      || t == "arg"
      || t == "asn"
      || t == "asp"
      || t == "val"
      || t == "his"
      || t == "gly"
      || t == "gln"
      || t == "glu"
      || t == "ile"
    ensures t in AminoNames && AminoNames[t] in AminoShortNames
    ensures Lower(AminoShortNames[AminoNames[t]]) == t
  {
    if t == "ala" { EntryAla(); }
    else if t == "arg" { EntryArg(); }
    else if t == "asn" { EntryAsn(); }
    else if t == "asp" { EntryAsp(); }
    else if t == "val" { EntryVal(); }
    else if t == "his" { EntryHis(); }
    else if t == "gly" { EntryGly(); }
    else if t == "gln" { EntryGln(); }
    else if t == "glu" { EntryGlu(); }
    else { EntryIle(); }
  }

  /** The last ten keys of AminoNames lead back to their own three-letter codes. */
  lemma LastNames(t: string)
    requires t == "leu"
      || t == "lys"
      || t == "met"
      || t == "pro"
      || t == "ser"
      || t == "tyr"
      || t == "thr"
      || t == "trp"
      || t == "phe"
      || t == "cys"
    ensures t in AminoNames && AminoNames[t] in AminoShortNames
    ensures Lower(AminoShortNames[AminoNames[t]]) == t
  {
    if t == "leu" { EntryLeu(); }
    else if t == "lys" { EntryLys(); }
    else if t == "met" { EntryMet(); }
    else if t == "pro" { EntryPro(); }
    else if t == "ser" { EntrySer(); }
    else if t == "tyr" { EntryTyr(); }
    else if t == "thr" { EntryThr(); }
    else if t == "trp" { EntryTrp(); }
    else if t == "phe" { EntryPhe(); }
    else { EntryCys(); }
  }

  /** The twenty keys of AminoNames. */
  lemma NameKeys(t: string)
    requires t in AminoNames
    ensures t == "ala"
      || t == "arg"
      || t == "asn"
      || t == "asp"
      || t == "val"
      || t == "his"
      || t == "gly"
      || t == "gln"
      || t == "glu"
      || t == "ile"
      || t == "leu"
      || t == "lys"
      || t == "met"
      || t == "pro"
      || t == "ser"
      || t == "tyr"
      || t == "thr"
      || t == "trp"
      || t == "phe"
      || t == "cys"
  {
  }

  /** Every one-letter code is an upper-case ASCII letter. */
  lemma CodeIsCapital(c: char)
    requires c in AminoShortNames
    ensures 'A' <= c <= 'Z'
  {
    TablesShareKeys(c);
  }

  /** Every three-letter name has three characters, none of them an upper-case ASCII letter. */
  lemma NameHasNoCapitals(t: string)
    requires t in AminoNames
    ensures |t| == 3 && forall k | 0 <= k < 3 :: !('A' <= t[k] <= 'Z')
  {
    NameRoundTrip(t);
  }

  /** A lower-cased string holds no capital letter. */
  lemma LowerHasNoCapitals(s: string)
    ensures forall k | 0 <= k < |Lower(s)| :: !('A' <= Lower(s)[k] <= 'Z')
  {
    forall k | 0 <= k < |s| ensures !('A' <= Lower(s)[k] <= 'Z') {
      CaseMappings(s[k]);
    }
  }

  /** The entries of Ala: 'A' is spelled "Ala", and "ala" leads back to 'A'. */
  lemma EntryAla()
    ensures 'A' in AminoShortNames && AminoShortNames['A'] == "Ala"
    ensures Lower("Ala") == "ala" && "ala" in AminoNames && AminoNames["ala"] == 'A'
  {
  }

  /** The entries of Arg: 'R' is spelled "Arg", and "arg" leads back to 'R'. */
  lemma EntryArg()
    ensures 'R' in AminoShortNames && AminoShortNames['R'] == "Arg"
    ensures Lower("Arg") == "arg" && "arg" in AminoNames && AminoNames["arg"] == 'R'
  {
  }

  /** The entries of Asn: 'N' is spelled "Asn", and "asn" leads back to 'N'. */
  lemma EntryAsn()
    ensures 'N' in AminoShortNames && AminoShortNames['N'] == "Asn"
    ensures Lower("Asn") == "asn" && "asn" in AminoNames && AminoNames["asn"] == 'N'
  {
  }

  /** The entries of Asp: 'D' is spelled "Asp", and "asp" leads back to 'D'. */
  lemma EntryAsp()
    ensures 'D' in AminoShortNames && AminoShortNames['D'] == "Asp"
    ensures Lower("Asp") == "asp" && "asp" in AminoNames && AminoNames["asp"] == 'D'
  {
  }

  /** The entries of Val: 'V' is spelled "Val", and "val" leads back to 'V'. */
  lemma EntryVal()
    ensures 'V' in AminoShortNames && AminoShortNames['V'] == "Val"
    ensures Lower("Val") == "val" && "val" in AminoNames && AminoNames["val"] == 'V'
  {
  }

  /** The entries of His: 'H' is spelled "His", and "his" leads back to 'H'. */
  lemma EntryHis()
    ensures 'H' in AminoShortNames && AminoShortNames['H'] == "His"
    ensures Lower("His") == "his" && "his" in AminoNames && AminoNames["his"] == 'H'
  {
  }

  /** The entries of Gly: 'G' is spelled "Gly", and "gly" leads back to 'G'. */
  lemma EntryGly()
    ensures 'G' in AminoShortNames && AminoShortNames['G'] == "Gly"
    ensures Lower("Gly") == "gly" && "gly" in AminoNames && AminoNames["gly"] == 'G'
  {
  }

  /** The entries of Gln: 'Q' is spelled "Gln", and "gln" leads back to 'Q'. */
  lemma EntryGln()
    ensures 'Q' in AminoShortNames && AminoShortNames['Q'] == "Gln"
    ensures Lower("Gln") == "gln" && "gln" in AminoNames && AminoNames["gln"] == 'Q'
  {
  }

  /** The entries of Glu: 'E' is spelled "Glu", and "glu" leads back to 'E'. */
  lemma EntryGlu()
    ensures 'E' in AminoShortNames && AminoShortNames['E'] == "Glu"
    ensures Lower("Glu") == "glu" && "glu" in AminoNames && AminoNames["glu"] == 'E'
  {
  }

  /** The entries of Ile: 'I' is spelled "Ile", and "ile" leads back to 'I'. */
  lemma EntryIle()
    ensures 'I' in AminoShortNames && AminoShortNames['I'] == "Ile"
    ensures Lower("Ile") == "ile" && "ile" in AminoNames && AminoNames["ile"] == 'I'
  {
  }

  /** The entries of Leu: 'L' is spelled "Leu", and "leu" leads back to 'L'. */
  lemma EntryLeu()
    ensures 'L' in AminoShortNames && AminoShortNames['L'] == "Leu"
    ensures Lower("Leu") == "leu" && "leu" in AminoNames && AminoNames["leu"] == 'L'
  {
  }

  /** The entries of Lys: 'K' is spelled "Lys", and "lys" leads back to 'K'. */
  lemma EntryLys()
    ensures 'K' in AminoShortNames && AminoShortNames['K'] == "Lys"
    ensures Lower("Lys") == "lys" && "lys" in AminoNames && AminoNames["lys"] == 'K'
  {
  }

  /** The entries of Met: 'M' is spelled "Met", and "met" leads back to 'M'. */
  lemma EntryMet()
    ensures 'M' in AminoShortNames && AminoShortNames['M'] == "Met"
    ensures Lower("Met") == "met" && "met" in AminoNames && AminoNames["met"] == 'M'
  {
  }

  /** The entries of Pro: 'P' is spelled "Pro", and "pro" leads back to 'P'. */
  lemma EntryPro()
    ensures 'P' in AminoShortNames && AminoShortNames['P'] == "Pro"
    ensures Lower("Pro") == "pro" && "pro" in AminoNames && AminoNames["pro"] == 'P'
  {
  }

  /** The entries of Ser: 'S' is spelled "Ser", and "ser" leads back to 'S'. */
  lemma EntrySer()
    ensures 'S' in AminoShortNames && AminoShortNames['S'] == "Ser"
    ensures Lower("Ser") == "ser" && "ser" in AminoNames && AminoNames["ser"] == 'S'
  {
  }

  /** The entries of Tyr: 'Y' is spelled "Tyr", and "tyr" leads back to 'Y'. */
  lemma EntryTyr()
    ensures 'Y' in AminoShortNames && AminoShortNames['Y'] == "Tyr"
    ensures Lower("Tyr") == "tyr" && "tyr" in AminoNames && AminoNames["tyr"] == 'Y'
  {
  }

  /** The entries of Thr: 'T' is spelled "Thr", and "thr" leads back to 'T'. */
  lemma EntryThr()
    ensures 'T' in AminoShortNames && AminoShortNames['T'] == "Thr"
    ensures Lower("Thr") == "thr" && "thr" in AminoNames && AminoNames["thr"] == 'T'
  {
  }

  /** The entries of Trp: 'W' is spelled "Trp", and "trp" leads back to 'W'. */
  lemma EntryTrp()
    ensures 'W' in AminoShortNames && AminoShortNames['W'] == "Trp"
    ensures Lower("Trp") == "trp" && "trp" in AminoNames && AminoNames["trp"] == 'W'
  {
  }

  /** The entries of Phe: 'F' is spelled "Phe", and "phe" leads back to 'F'. */
  lemma EntryPhe()
    ensures 'F' in AminoShortNames && AminoShortNames['F'] == "Phe"
    ensures Lower("Phe") == "phe" && "phe" in AminoNames && AminoNames["phe"] == 'F'
  {
  }

  /** The entries of Cys: 'C' is spelled "Cys", and "cys" leads back to 'C'. */
  lemma EntryCys()
    ensures 'C' in AminoShortNames && AminoShortNames['C'] == "Cys"
    ensures Lower("Cys") == "cys" && "cys" in AminoNames && AminoNames["cys"] == 'C'
  {
  }
}
