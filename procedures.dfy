/**
 * The six analysis procedures. Each takes the list of canonical one-letter
 * sequences and returns one result per sequence, in order. Where the tool
 * would raise KeyError on a character outside a table, the procedure
 * requires that character to be in the table: the dispatcher only ever
 * passes normalised sequences.
 */
module Procedures {
  import opened Wrappers
  import opened Errors
  import opened Residues

  // ---------------------------------------------------------------------
  // Shared helpers

  /** `"".join(parts)`. */
  function Join(parts: seq<string>): string {
    if parts == [] then "" else Join(parts[..|parts| - 1]) + parts[|parts| - 1]
  }

  /** Each character of `s` replaced by its entry in `table`. */
  function Translate(table: map<char, string>, s: string): seq<string>
    requires forall k :: 0 <= k < |s| ==> s[k] in table
  {
    seq(|s|, k requires 0 <= k < |s| => table[s[k]])
  }

  /** Translating one more character appends one more entry. */
  lemma TranslateSnoc(table: map<char, string>, s: string, j: nat)
    requires j < |s|
    requires forall k :: 0 <= k < |s| ==> s[k] in table
    ensures Translate(table, s[..j + 1]) == Translate(table, s[..j]) + [table[s[j]]]
  {
  }

  /**
   * Joining pieces of three characters gives a string three times as long,
   * whose k-th chunk of three is the k-th piece.
   */
  lemma {:induction false} JoinOfTriplets(parts: seq<string>)
    requires forall k :: 0 <= k < |parts| ==> |parts[k]| == 3
    ensures |Join(parts)| == 3 * |parts|
    ensures forall k :: 0 <= k < |parts| ==> Join(parts)[3 * k .. 3 * k + 3] == parts[k]
  {
    if parts != [] {
      var n := |parts| - 1;
      JoinOfTriplets(parts[..n]);
      var prefix := Join(parts[..n]);
      assert Join(parts) == prefix + parts[n];
      forall k | 0 <= k < |parts| ensures Join(parts)[3 * k .. 3 * k + 3] == parts[k] {
        if k < n {
          assert Join(parts)[3 * k .. 3 * k + 3] == prefix[3 * k .. 3 * k + 3];
        } else {
          assert Join(parts)[3 * k .. 3 * k + 3] == parts[n];
        }
      }
    }
  }

  // ---------------------------------------------------------------------
  // molecular_weight

  /**
   * The summed residue weight of `s`, in hundredths of a dalton (letters are
   * upper-cased first). Each residue weighs between glycine's 75.07 Da and
   * tryptophan's 204.23 Da.
   */
  function TotalWeight(s: string): (r: nat)
    requires forall k :: 0 <= k < |s| ==> UpperChar(s[k]) in AminoWeights
    ensures 7507 * |s| <= r <= 20423 * |s|
  {
    if s == [] then 0
    else
      var c := UpperChar(s[|s| - 1]);
      assert 7507 <= AminoWeights[c] <= 20423;
      TotalWeight(s[..|s| - 1]) + AminoWeights[c]
  }

  /** `molecular_weight`, without its final division by 1000 and rounding. */
  method MolecularWeight(seqs: seq<string>) returns (weights: seq<nat>)
    requires forall i, k :: 0 <= i < |seqs| && 0 <= k < |seqs[i]| ==> UpperChar(seqs[i][k]) in AminoWeights
    ensures |weights| == |seqs|
    ensures forall i :: 0 <= i < |seqs| ==> weights[i] == TotalWeight(seqs[i])
  {
    weights := [];
    for i := 0 to |seqs|
      invariant |weights| == i
      invariant forall m :: 0 <= m < i ==> weights[m] == TotalWeight(seqs[m])
    {
      var totalWeight := SequenceWeight(seqs[i]);
      weights := weights + [totalWeight];
    }
  }

  /** The inner loop of `molecular_weight`: one sequence's weights, added up residue by residue. */
  method SequenceWeight(s: string) returns (totalWeight: nat)
    requires forall k :: 0 <= k < |s| ==> UpperChar(s[k]) in AminoWeights
    ensures totalWeight == TotalWeight(s)
  {
    totalWeight := 0;
    for j := 0 to |s|
      invariant totalWeight == TotalWeight(s[..j])
    {
      assert s[..j + 1][..j] == s[..j];
      totalWeight := totalWeight + AminoWeights[UpperChar(s[j])];
    }
    assert s[..|s|] == s;
  }

  /** The weight of a concatenation is the sum of the weights. */
  lemma {:induction false} TotalWeightAdditive(a: string, b: string)
    requires forall k :: 0 <= k < |a| ==> UpperChar(a[k]) in AminoWeights
    requires forall k :: 0 <= k < |b| ==> UpperChar(b[k]) in AminoWeights
    ensures TotalWeight(a + b) == TotalWeight(a) + TotalWeight(b)
    decreases |b|
  {
    if b == [] {
      assert a + b == a;
    } else {
      var n := |b| - 1;
      assert (a + b)[..|a + b| - 1] == a + b[..n];
      TotalWeightAdditive(a, b[..n]);
    }
  }

  // ---------------------------------------------------------------------
  // one_letter_to_three

  /** The three-letter spelling of a sequence: each (upper-cased) letter's three-letter code, concatenated. */
  function ThreeLetterCode(s: string): (r: string)
    requires forall k :: 0 <= k < |s| ==> UpperChar(s[k]) in AminoShortNames
    ensures |r| == 3 * |s|
  {
    var parts := Translate(AminoShortNames, Upper(s));
    assert forall k :: 0 <= k < |parts| ==> |parts[k]| == 3 by {
      forall k | 0 <= k < |parts| ensures |parts[k]| == 3 {
        ShortNameRoundTrip(Upper(s)[k]);
      }
    }
    JoinOfTriplets(parts);
    Join(parts)
  }

  /** `one_letter_to_three`. */
  method OneLetterToThree(seqs: seq<string>) returns (threeLettersSeqs: seq<string>)
    requires forall i, k :: 0 <= i < |seqs| && 0 <= k < |seqs[i]| ==> UpperChar(seqs[i][k]) in AminoShortNames
    ensures |threeLettersSeqs| == |seqs|
    ensures forall i :: 0 <= i < |seqs| ==> threeLettersSeqs[i] == ThreeLetterCode(seqs[i])
  {
    threeLettersSeqs := [];
    for i := 0 to |seqs|
      invariant |threeLettersSeqs| == i
      invariant forall m :: 0 <= m < i ==> threeLettersSeqs[m] == ThreeLetterCode(seqs[m])
    {
      var threeLettersSeq := SpellThreeLetter(seqs[i]);
      threeLettersSeqs := threeLettersSeqs + [Join(threeLettersSeq)];
    }
  }

  /** The inner loop of `one_letter_to_three`: the three-letter codes of one sequence's letters, in order. */
  method SpellThreeLetter(s: string) returns (threeLettersSeq: seq<string>)
    requires forall k :: 0 <= k < |s| ==> UpperChar(s[k]) in AminoShortNames
    ensures threeLettersSeq == Translate(AminoShortNames, Upper(s))
  {
    threeLettersSeq := [];
    for j := 0 to |s|
      invariant threeLettersSeq == Translate(AminoShortNames, Upper(s)[..j])
    {
      var aa := UpperChar(s[j]);
      TranslateSnoc(AminoShortNames, Upper(s), j);
      threeLettersSeq := threeLettersSeq + [AminoShortNames[aa]];
    }
    assert Upper(s)[..|s|] == Upper(s);
  }

  /**
   * The three-letter spelling is three times as long as the sequence, and
   * its k-th triplet is the three-letter code of the k-th letter.
   */
  lemma ThreeLetterCodeShape(s: string)
    requires forall k :: 0 <= k < |s| ==> UpperChar(s[k]) in AminoShortNames
    ensures |ThreeLetterCode(s)| == 3 * |s|
    ensures forall k :: 0 <= k < |s| ==> ThreeLetterCode(s)[3 * k .. 3 * k + 3] == AminoShortNames[UpperChar(s[k])]
  {
    var parts := Translate(AminoShortNames, Upper(s));
    forall k | 0 <= k < |parts| ensures |parts[k]| == 3 {
      ShortNameRoundTrip(Upper(s)[k]);
    }
    JoinOfTriplets(parts);
    forall k | 0 <= k < |s|
      ensures ThreeLetterCode(s)[3 * k .. 3 * k + 3] == AminoShortNames[UpperChar(s[k])]
    {
      assert parts[k] == AminoShortNames[UpperChar(s[k])];
    }
  }

  // ---------------------------------------------------------------------
  // get_amino_acid_sum

  /** The number of occurrences of each of the twenty codes in `s` (zero for absent codes). */
  function AminoAcidCounts(s: string): (r: map<char, nat>)
    ensures r.Keys == AminoShortNames.Keys
    ensures forall c :: c in r ==> (r[c] > 0 <==> c in s)
  {
    map c | c in AminoShortNames :: multiset(s)[c]
  }

  /** `get_amino_acid_sum`: a count map per sequence, updated in place one residue at a time. */
  method GetAminoAcidSum(proteinSequences: seq<string>) returns (result: seq<map<char, nat>>)
    requires forall i, k :: 0 <= i < |proteinSequences| && 0 <= k < |proteinSequences[i]| ==>
      proteinSequences[i][k] in AminoShortNames
    ensures |result| == |proteinSequences|
    ensures forall i :: 0 <= i < |proteinSequences| ==> result[i] == AminoAcidCounts(proteinSequences[i])
  {
    result := [];
    for i := 0 to |proteinSequences|
      invariant |result| == i
      invariant forall m :: 0 <= m < i ==> result[m] == AminoAcidCounts(proteinSequences[m])
    {
      var aminoAcidCount := CountResidues(proteinSequences[i]);
      result := result + [aminoAcidCount];
    }
  }

  /** The inner loop of `get_amino_acid_sum`: a map from every code to 0, bumped once per residue of `s`. */
  method CountResidues(s: string) returns (aminoAcidCount: map<char, nat>)
    requires forall k :: 0 <= k < |s| ==> s[k] in AminoShortNames
    ensures aminoAcidCount == AminoAcidCounts(s)
  {
    aminoAcidCount := map c | c in AminoShortNames :: 0;
    CountsOfEmpty(s);
    for j := 0 to |s|
      invariant aminoAcidCount == AminoAcidCounts(s[..j])
    {
      var aminoAcid := s[j];
      CountsOfPrefix(s, j);
      aminoAcidCount := aminoAcidCount[aminoAcid := aminoAcidCount[aminoAcid] + 1];
    }
    assert s[..|s|] == s;
  }

  /** Before any residue is read, every code counts 0. */
  lemma CountsOfEmpty(s: string)
    ensures AminoAcidCounts(s[..0]) == map c | c in AminoShortNames :: 0
  {
    assert s[..0] == [];
  }

  /** Reading residue `j` of `s` bumps its count in the counts of the prefix before it. */
  lemma CountsOfPrefix(s: string, j: nat)
    requires j < |s| && s[j] in AminoShortNames
    ensures AminoAcidCounts(s[..j + 1]) == AminoAcidCounts(s[..j])[s[j] := AminoAcidCounts(s[..j])[s[j]] + 1]
  {
    assert s[..j + 1] == s[..j] + [s[j]];
    CountsSnoc(s[..j], s[j]);
  }

  /** Appending a residue raises its own count by one and leaves every other count alone. */
  lemma CountsSnoc(t: string, c: char)
    requires c in AminoShortNames
    ensures AminoAcidCounts(t + [c]) == AminoAcidCounts(t)[c := AminoAcidCounts(t)[c] + 1]
  {
    assert multiset(t + [c]) == multiset(t) + multiset{c};
  }

  /** The sum of the values of `m` at `keys`. */
  function SumAt(m: map<char, nat>, keys: seq<char>): nat
    requires forall k :: 0 <= k < |keys| ==> keys[k] in m
  {
    if keys == [] then 0 else SumAt(m, keys[..|keys| - 1]) + m[keys[|keys| - 1]]
  }

  /** Raising one key's value by one raises a sum over distinct keys by one if the key is among them. */
  lemma {:induction false} SumAtBump(m: map<char, nat>, m': map<char, nat>, keys: seq<char>, c: char)
    requires forall k :: 0 <= k < |keys| ==> keys[k] in m && keys[k] in m'
    requires forall i, j :: 0 <= i < j < |keys| ==> keys[i] != keys[j]
    requires forall k :: 0 <= k < |keys| ==> m'[keys[k]] == m[keys[k]] + (if keys[k] == c then 1 else 0)
    ensures SumAt(m', keys) == SumAt(m, keys) + (if c in keys then 1 else 0)
  {
    if keys != [] {
      var n := |keys| - 1;
      SumAtBump(m, m', keys[..n], c);
      assert c in keys <==> c in keys[..n] || keys[n] == c;
      assert keys[n] == c ==> c !in keys[..n];
    }
  }

  /** The twenty counts of a canonical sequence add up to its length. */
  lemma {:induction false} AminoAcidCountsSumToLength(s: string)
    requires IsCanonical(s)
    ensures AminoAcidCounts(s).Keys == AminoShortNames.Keys
    ensures SumAt(AminoAcidCounts(s), Codes) == |s|
  {
    CodesAreTheKeys();
    if s == [] {
      assert SumAt(AminoAcidCounts(s), Codes) == 0 by {
        ZeroSum(AminoAcidCounts(s), Codes);
      }
    } else {
      var n := |s| - 1;
      var c := s[n];
      assert s == s[..n] + [c];
      AminoAcidCountsSumToLength(s[..n]);
      SumAtBump(AminoAcidCounts(s[..n]), AminoAcidCounts(s), Codes, c);
    }
  }

  /** A sum over keys that all map to zero is zero. */
  lemma {:induction false} ZeroSum(m: map<char, nat>, keys: seq<char>)
    requires forall k :: 0 <= k < |keys| ==> keys[k] in m && m[keys[k]] == 0
    ensures SumAt(m, keys) == 0
  {
    if keys != [] {
      ZeroSum(m, keys[..|keys| - 1]);
    }
  }

  // ---------------------------------------------------------------------
  // codon_optimization

  /** The six cell-type aliases, in the order the tool lists them. */
  const CellTypes: seq<string> := ["Esherichia coli", "E.coli", "Pichia pastoris", "P.pastoris", "Mouse", "mouse"]

  /** The codon table a cell type selects, or None for an unsupported (or absent) cell type. */
  function OrganismTable(cellType: Option<string>): (r: Option<map<char, string>>)
    ensures r.Some? <==> cellType.Some? && cellType.value in CellTypes
    ensures r.Some? ==> forall c :: c in AminoShortNames ==> c in r.value
  {
    forall c | c in AminoShortNames ensures c in EcoliTriplets && c in PpastorisTriplets && c in MouseTriplets {
      TablesShareKeys(c);
    }
    match cellType
    case None => None
    case Some(name) =>
      if name == "Esherichia coli" || name == "E.coli" then Some(EcoliTriplets)
      else if name == "Pichia pastoris" || name == "P.pastoris" then Some(PpastorisTriplets)
      else if name == "Mouse" || name == "mouse" then Some(MouseTriplets)
      else None
  }

  /** The table a supported cell type selects is a codon table. */
  lemma OrganismTableWellFormed(cellType: Option<string>)
    requires OrganismTable(cellType).Some?
    ensures IsCodonTable(OrganismTable(cellType).value)
  {
    CodonTablesWellFormed();
  }

  /** The DNA for a sequence: each residue's triplet from `table`, concatenated. */
  function CodonSequence(table: map<char, string>, s: string): (r: string)
    requires forall k :: 0 <= k < |s| ==> s[k] in table
    ensures (forall c :: c in table ==> |table[c]| == 3) ==> |r| == 3 * |s|
  {
    var parts := Translate(table, s);
    if forall c :: c in table ==> |table[c]| == 3 then
      JoinOfTriplets(parts);
      Join(parts)
    else
      Join(parts)
  }

  /** `codon_optimization`. */
  method CodonOptimization(proteinSequences: seq<string>, cellType: Option<string>)
    returns (r: Result<seq<string>, Error>)
    requires OrganismTable(cellType).Some? ==>
      forall i, k :: 0 <= i < |proteinSequences| && 0 <= k < |proteinSequences[i]| ==>
        proteinSequences[i][k] in AminoShortNames
    ensures r.Ok? <==> cellType.Some? && cellType.value in CellTypes
    ensures r.Err? ==> r.error == UnsupportedOrganism(cellType)
    ensures r.Ok? ==> |r.value| == |proteinSequences|
    ensures r.Ok? ==> forall i :: 0 <= i < |proteinSequences| ==>
      r.value[i] == CodonSequence(OrganismTable(cellType).value, proteinSequences[i])
  {
    if cellType.Some? && cellType.value in CellTypes {
      var usingKey := OrganismTable(cellType).value;
      var codonOptimizationPost: seq<string> := [];
      for i := 0 to |proteinSequences|
        invariant |codonOptimizationPost| == i
        invariant forall m :: 0 <= m < i ==> codonOptimizationPost[m] == CodonSequence(usingKey, proteinSequences[m])
      {
        var codonOptimizationPre := OptimizeSequence(usingKey, proteinSequences[i]);
        codonOptimizationPost := codonOptimizationPost + [codonOptimizationPre];
      }
      r := Ok(codonOptimizationPost);
    } else {
      r := Err(UnsupportedOrganism(cellType));
    }
  }

  /** The inner loop of `codon_optimization`: each residue's triplet from `usingKey`, appended in order. */
  method OptimizeSequence(usingKey: map<char, string>, sequence: string) returns (codonOptimizationPre: string)
    requires forall k :: 0 <= k < |sequence| ==> sequence[k] in usingKey
    ensures codonOptimizationPre == CodonSequence(usingKey, sequence)
  {
    codonOptimizationPre := "";
    for j := 0 to |sequence|
      invariant codonOptimizationPre == Join(Translate(usingKey, sequence[..j]))
    {
      TranslateSnoc(usingKey, sequence, j);
      codonOptimizationPre := codonOptimizationPre + usingKey[sequence[j]];
    }
    assert sequence[..|sequence|] == sequence;
  }

  /** A single residue is translated to its own triplet. */
  lemma CodonSequenceOfOne(table: map<char, string>, c: char)
    requires c in table
    ensures CodonSequence(table, [c]) == table[c]
  {
    assert Translate(table, [c]) == [table[c]];
    assert Join([table[c]]) == Join([]) + table[c];
  }

  /**
   * The DNA of a canonical sequence is three nucleotides per residue: its
   * k-th triplet is the table's triplet for the k-th residue.
   */
  lemma CodonSequenceShape(table: map<char, string>, s: string)
    requires IsCodonTable(table)
    requires IsCanonical(s)
    ensures |CodonSequence(table, s)| == 3 * |s|
    ensures forall k :: 0 <= k < |s| ==> CodonSequence(table, s)[3 * k .. 3 * k + 3] == table[s[k]]
    ensures forall k :: 0 <= k < |CodonSequence(table, s)| ==> CodonSequence(table, s)[k] in "ACGT"
  {
    var parts := Translate(table, s);
    forall k | 0 <= k < |parts| ensures parts[k] == table[s[k]] && |parts[k]| == 3 {
      assert s[k] in table;
    }
    JoinOfTriplets(parts);
    var dna := CodonSequence(table, s);
    forall k | 0 <= k < |s| ensures dna[3 * k .. 3 * k + 3] == table[s[k]] {
      assert parts[k] == table[s[k]];
    }
    forall k | 0 <= k < |dna| ensures dna[k] in "ACGT" {
      var q := k / 3;
      assert dna[3 * q .. 3 * q + 3] == table[s[q]];
      assert dna[k] == table[s[q]][k - 3 * q];
    }
  }

  // ---------------------------------------------------------------------
  // length

  /** `length`: the number of characters of each sequence. */
  function Length(seqs: seq<string>): (r: seq<nat>)
    ensures |r| == |seqs|
    ensures forall i :: 0 <= i < |seqs| ==> r[i] == |seqs[i]|
  {
    seq(|seqs|, i requires 0 <= i < |seqs| => |seqs[i]|)
  }

  /** For every canonical sequence, the amino-acid counts add up to its length. */
  lemma AminoAcidSumMatchesLength(seqs: seq<string>)
    requires forall i :: 0 <= i < |seqs| ==> IsCanonical(seqs[i])
    ensures |Length(seqs)| == |seqs|
    ensures forall i :: 0 <= i < |seqs| ==> SumAt(AminoAcidCounts(seqs[i]), Codes) == Length(seqs)[i]
  {
    forall i | 0 <= i < |seqs| ensures SumAt(AminoAcidCounts(seqs[i]), Codes) == Length(seqs)[i] {
      AminoAcidCountsSumToLength(seqs[i]);
    }
  }

  // ---------------------------------------------------------------------
  // brutto_count

  /** Every row of the brutto table has at least the five C, H, N, O, S components. */
  lemma BruttoRowsCoverElements()
    ensures forall c :: c in AminoBrutto ==> |AminoBrutto[c]| >= |Elements|
  {
    forall c | c in AminoBrutto ensures |AminoBrutto[c]| >= |Elements| {
      BruttoRowLengths(c);
    }
  }

  /** The brutto rows of the residues of `s`, in order. */
  function Rows(s: string): seq<seq<nat>>
    requires forall k :: 0 <= k < |s| ==> s[k] in AminoBrutto
  {
    seq(|s|, k requires 0 <= k < |s| => AminoBrutto[s[k]])
  }

  /** The length of the shortest row. */
  function MinLength(rows: seq<seq<nat>>): (r: nat)
    requires rows != []
    ensures forall k :: 0 <= k < |rows| ==> r <= |rows[k]|
    ensures exists k :: 0 <= k < |rows| && r == |rows[k]|
  {
    var n := |rows| - 1;
    if n == 0 then |rows[0]|
    else
      var m := MinLength(rows[..n]);
      assert forall k :: 0 <= k < n ==> rows[..n][k] == rows[k];
      if m <= |rows[n]| then m else |rows[n]|
  }

  /**
   * `zip(*rows)`: the j-th column holds the j-th component of every row, and
   * there are as many columns as the shortest row has components.
   */
  function Transpose(rows: seq<seq<nat>>): (cols: seq<seq<nat>>)
    ensures rows == [] ==> cols == []
    ensures rows != [] ==> |cols| == MinLength(rows)
    ensures forall j :: 0 <= j < |cols| ==>
      |cols[j]| == |rows| && forall k :: 0 <= k < |rows| ==> cols[j][k] == rows[k][j]
  {
    if rows == [] then []
    else
      var w := MinLength(rows);
      seq(w, j requires 0 <= j < w => seq(|rows|, k requires 0 <= k < |rows| => rows[k][j]))
  }

  /** `sum(xs)`. */
  function Sum(xs: seq<nat>): nat {
    if xs == [] then 0 else Sum(xs[..|xs| - 1]) + xs[|xs| - 1]
  }

  /** `dict(zip(keys, values))`: pairs up to the shorter length; a repeated key keeps its last value. */
  function ZipToMap(keys: seq<char>, values: seq<nat>): map<char, nat>
    decreases |keys|
  {
    if keys == [] || values == [] then map[]
    else
      var n := if |keys| <= |values| then |keys| else |values|;
      ZipToMap(keys[..n - 1], values[..n - 1])[keys[n - 1] := values[n - 1]]
  }

  /** With distinct keys, the zipped map holds the first n keys, each with its own value. */
  lemma {:induction false} ZipToMapDistinct(keys: seq<char>, values: seq<nat>, n: nat)
    requires n == if |keys| <= |values| then |keys| else |values|
    requires forall i, j :: 0 <= i < j < |keys| ==> keys[i] != keys[j]
    ensures forall c :: c in ZipToMap(keys, values) <==> c in keys[..n]
    ensures forall k :: 0 <= k < n ==> ZipToMap(keys, values)[keys[k]] == values[k]
    decreases |keys|
  {
    if keys != [] && values != [] {
      var ks, vs := keys[..n - 1], values[..n - 1];
      ZipToMapDistinct(ks, vs, n - 1);
      assert ks[..n - 1] == keys[..n - 1];
      assert keys[..n] == keys[..n - 1] + [keys[n - 1]];
      forall k | 0 <= k < n - 1 ensures keys[k] != keys[n - 1] && ks[k] == keys[k] && vs[k] == values[k] {
      }
    }
  }

  /** The brutto formula of one sequence, as `brutto_count` computes it. */
  function BruttoFormula(s: string): (r: map<char, nat>)
    requires forall k :: 0 <= k < |s| ==> s[k] in AminoBrutto
    ensures s == [] ==> r == map[]
    ensures s != [] ==> r.Keys == {'C', 'H', 'N', 'O', 'S'}
  {
    var sums := BruttoSums(s);
    assert s != [] ==> ZipToMap(Elements, sums).Keys == {'C', 'H', 'N', 'O', 'S'} by {
      if s != [] {
        BruttoSumsCountElements(s);
        ZipElements(sums);
      }
    }
    ZipToMap(Elements, sums)
  }

  /** `[sum(i) for i in zip(*brutto_list)]`: the column sums of the rows of `s`. */
  function BruttoSums(s: string): seq<nat>
    requires forall k :: 0 <= k < |s| ==> s[k] in AminoBrutto
  {
    var bruttoPair := Transpose(Rows(s));
    seq(|bruttoPair|, j requires 0 <= j < |bruttoPair| => Sum(bruttoPair[j]))
  }

  /** `brutto_count`. */
  method BruttoCount(seqs: seq<string>) returns (result: seq<map<char, nat>>)
    requires forall i, k :: 0 <= i < |seqs| && 0 <= k < |seqs[i]| ==> seqs[i][k] in AminoBrutto
    ensures |result| == |seqs|
    ensures forall i :: 0 <= i < |seqs| ==> result[i] == BruttoFormula(seqs[i])
  {
    result := [];
    for i := 0 to |seqs|
      invariant |result| == i
      invariant forall m :: 0 <= m < i ==> result[m] == BruttoFormula(seqs[m])
    {
      var s := seqs[i];
      var bruttoList := Rows(s);
      var bruttoPair := Transpose(bruttoList);
      var brutto := seq(|bruttoPair|, j requires 0 <= j < |bruttoPair| => Sum(bruttoPair[j]));
      var bruttoDict := ZipToMap(Elements, brutto);
      assert bruttoDict == BruttoFormula(s);
      ghost var before := result;
      result := result + [bruttoDict];
      assert forall m :: 0 <= m < i ==> result[m] == before[m];
    }
  }

  /** Reference definition: the atoms of element `e` contributed by every residue of `s`, added up. */
  function ElementCount(s: string, e: nat): nat
    requires e < |Elements|
    requires forall k :: 0 <= k < |s| ==> s[k] in AminoBrutto
  {
    BruttoRowsCoverElements();
    if s == [] then 0 else ElementCount(s[..|s| - 1], e) + AminoBrutto[s[|s| - 1]][e]
  }

  /** The e-th component of every residue's row. */
  function Column(s: string, e: nat): seq<nat>
    requires e < |Elements|
    requires forall k :: 0 <= k < |s| ==> s[k] in AminoBrutto
  {
    BruttoRowsCoverElements();
    seq(|s|, k requires 0 <= k < |s| => AminoBrutto[s[k]][e])
  }

  /** Summing the e-th column of the transposed rows is counting element e residue by residue. */
  lemma {:induction false} ColumnSumIsElementCount(s: string, e: nat)
    requires e < |Elements|
    requires forall k :: 0 <= k < |s| ==> s[k] in AminoBrutto
    ensures Sum(Column(s, e)) == ElementCount(s, e)
  {
    if s != [] {
      var n := |s| - 1;
      ColumnSumIsElementCount(s[..n], e);
      assert Column(s, e)[..n] == Column(s[..n], e);
    }
  }

  /** The five element symbols are distinct, and they are C, H, N, O and S. */
  lemma ElementsAreDistinct()
    ensures forall i, j :: 0 <= i < j < |Elements| ==> Elements[i] != Elements[j]
    ensures forall c :: c in Elements <==> c in {'C', 'H', 'N', 'O', 'S'}
  {
    assert Elements == ['C', 'H', 'N', 'O', 'S'];
  }

  /** A non-empty sequence has at least five column sums, the e-th counting element e. */
  lemma BruttoSumsCountElements(s: string)
    requires s != []
    requires forall k :: 0 <= k < |s| ==> s[k] in AminoBrutto
    ensures |BruttoSums(s)| >= |Elements|
    ensures forall e :: 0 <= e < |Elements| ==> BruttoSums(s)[e] == ElementCount(s, e)
  {
    BruttoRowsCoverElements();
    var rows := Rows(s);
    var k0 :| 0 <= k0 < |rows| && MinLength(rows) == |rows[k0]|;
    assert |rows[k0]| >= |Elements|;
    forall e | 0 <= e < |Elements| ensures BruttoSums(s)[e] == ElementCount(s, e) {
      assert Transpose(rows)[e] == Column(s, e);
      ColumnSumIsElementCount(s, e);
    }
  }

  /**
   * The brutto formula of an empty sequence is empty; that of any other
   * sequence of residues has exactly the keys C, H, N, O and S, each mapped
   * to the atoms of that element summed over the residues. Threonine's sixth
   * component never makes it into the result.
   */
  lemma BruttoFormulaSpec(s: string)
    requires forall k :: 0 <= k < |s| ==> s[k] in AminoBrutto
    ensures s == [] ==> BruttoFormula(s) == map[]
    ensures s != [] ==> BruttoFormula(s).Keys == {'C', 'H', 'N', 'O', 'S'}
    ensures s != [] ==> forall e :: 0 <= e < |Elements| ==> BruttoFormula(s)[Elements[e]] == ElementCount(s, e)
  {
    if s != [] {
      BruttoSumsCountElements(s);
      ZipElements(BruttoSums(s));
    }
  }

  /** Zipping the element symbols with five or more sums keeps the first five, one per element. */
  lemma ZipElements(sums: seq<nat>)
    requires |sums| >= |Elements|
    ensures ZipToMap(Elements, sums).Keys == {'C', 'H', 'N', 'O', 'S'}
    ensures forall e :: 0 <= e < |Elements| ==> ZipToMap(Elements, sums)[Elements[e]] == sums[e]
  {
    ElementsAreDistinct();
    ZipToMapDistinct(Elements, sums, |Elements|);
    assert Elements[..|Elements|] == Elements;
    var f := ZipToMap(Elements, sums);
    forall c ensures c in f <==> c in {'C', 'H', 'N', 'O', 'S'} {
      assert c in f <==> c in Elements;
    }
  }

  /** Counting an element is additive over concatenation. */
  lemma {:induction false} ElementCountAdditive(a: string, b: string, e: nat)
    requires e < |Elements|
    requires forall k :: 0 <= k < |a| ==> a[k] in AminoBrutto
    requires forall k :: 0 <= k < |b| ==> b[k] in AminoBrutto
    ensures ElementCount(a + b, e) == ElementCount(a, e) + ElementCount(b, e)
    decreases |b|
  {
    if b == [] {
      assert a + b == a;
    } else {
      var n := |b| - 1;
      assert (a + b)[..|a + b| - 1] == a + b[..n];
      ElementCountAdditive(a, b[..n], e);
    }
  }

  /** The brutto formula of two non-empty sequences joined is the element-wise sum of theirs. */
  lemma BruttoFormulaAdditive(a: string, b: string)
    requires a != [] && b != []
    requires forall k :: 0 <= k < |a| ==> a[k] in AminoBrutto
    requires forall k :: 0 <= k < |b| ==> b[k] in AminoBrutto
    ensures forall k :: 0 <= k < |a + b| ==> (a + b)[k] in AminoBrutto
    ensures BruttoFormula(a + b).Keys == BruttoFormula(a).Keys == BruttoFormula(b).Keys == {'C', 'H', 'N', 'O', 'S'}
    ensures forall e :: 0 <= e < |Elements| ==>
      BruttoFormula(a + b)[Elements[e]] == BruttoFormula(a)[Elements[e]] + BruttoFormula(b)[Elements[e]]
  {
    var ab := a + b;
    assert forall k :: 0 <= k < |ab| ==> ab[k] in AminoBrutto by {
      forall k | 0 <= k < |ab| ensures ab[k] in AminoBrutto {
        if k >= |a| { assert ab[k] == b[k - |a|]; }
      }
    }
    BruttoFormulaSpec(a);
    BruttoFormulaSpec(b);
    BruttoFormulaSpec(ab);
    forall e | 0 <= e < |Elements|
      ensures BruttoFormula(ab)[Elements[e]] == BruttoFormula(a)[Elements[e]] + BruttoFormula(b)[Elements[e]]
    {
      ElementCountAdditive(a, b, e);
    }
  }

  /** A lone threonine: its row [4, 9, 11, 1, 3, 0] is read as C4 H9 N11 O1 S3. */
  lemma ThreonineBrutto()
    ensures BruttoFormula("T") == map['C' := 4, 'H' := 9, 'N' := 11, 'O' := 1, 'S' := 3]
  {
    BruttoFormulaSpec("T");
    assert "T"[..0] == "";
    assert Elements[0] == 'C' && Elements[1] == 'H' && Elements[2] == 'N';
    assert Elements[3] == 'O' && Elements[4] == 'S';
  }
}
