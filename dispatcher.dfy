/**
 * The public entry point `protein_analysis`: normalise the sequences, look
 * the procedure up by name in a registry of six, and run it. The registry
 * is a tagged enumeration. The advisory the normaliser prints is returned
 * beside the procedure's result or error: it is printed before the
 * procedure is looked up, so a later failure does not take it back.
 */
module Dispatcher {
  import opened Wrappers
  import opened Errors
  import opened Residues
  import N = Normalizer
  import P = Procedures

  /** The six registered procedures. */
  datatype Procedure =
    | MolecularWeight
    | OneLetterToThree
    | GetAminoAcidSum
    | CodonOptimization
    | Length
    | BruttoCount

  /** The name each procedure is registered under. */
  function Name(p: Procedure): string {
    match p
    case MolecularWeight => "molecular_weight"
    case OneLetterToThree => "one_letter_to_three"
    case GetAminoAcidSum => "get_amino_acid_sum"
    case CodonOptimization => "codon_optimization"
    case Length => "length"
    case BruttoCount => "brutto_count"
  }

  /** The registry lookup: the procedure registered under `name`, if any. */
  function Lookup(name: string): (r: Option<Procedure>)
    ensures r.Some? ==> Name(r.value) == name
  {
    if name == "molecular_weight" then Some(MolecularWeight)
    else if name == "one_letter_to_three" then Some(OneLetterToThree)
    else if name == "get_amino_acid_sum" then Some(GetAminoAcidSum)
    else if name == "codon_optimization" then Some(CodonOptimization)
    else if name == "length" then Some(Length)
    else if name == "brutto_count" then Some(BruttoCount)
    else None
  }

  /** Every procedure is found under its own name, and no name is registered twice. */
  lemma LookupName(p: Procedure)
    ensures Lookup(Name(p)) == Some(p)
  {
  }

  /** A name is in the registry exactly when it is one of the six procedure names. */
  lemma LookupIff(name: string)
    ensures Lookup(name).Some? <==> exists p :: Name(p) == name
  {
    if exists p :: Name(p) == name {
      var p :| Name(p) == name;
      LookupName(p);
    }
  }

  /** The per-sequence results of each procedure. */
  datatype Analysis =
    | Weights(weights: seq<nat>)
    | ThreeLetterSeqs(seqs: seq<string>)
    | AminoAcidSums(counts: seq<map<char, nat>>)
    | CodonSeqs(dna: seq<string>)
    | Lengths(lengths: seq<nat>)
    | BruttoFormulas(formulas: seq<map<char, nat>>)
  {
    /** The number of per-sequence results. */
    function Size(): nat {
      match this
      case Weights(w) => |w|
      case ThreeLetterSeqs(t) => |t|
      case AminoAcidSums(c) => |c|
      case CodonSeqs(d) => |d|
      case Lengths(l) => |l|
      case BruttoFormulas(b) => |b|
    }
  }

  /**
   * What one call shows its caller: whether the three-letter advisory was
   * printed, and the procedure's results or the error raised.
   */
  datatype Report = Report(warned: bool, result: Result<Analysis, Error>)

  /** Canonical sequences are inside every residue table, also after upper-casing. */
  lemma CanonicalInTables(seqs: seq<string>)
    requires forall i :: 0 <= i < |seqs| ==> IsCanonical(seqs[i])
    ensures forall i, k :: 0 <= i < |seqs| && 0 <= k < |seqs[i]| ==>
      && UpperChar(seqs[i][k]) == seqs[i][k]
      && seqs[i][k] in AminoShortNames
      && seqs[i][k] in AminoWeights
      && seqs[i][k] in AminoBrutto
  {
    forall i, k | 0 <= i < |seqs| && 0 <= k < |seqs[i]|
      ensures UpperChar(seqs[i][k]) == seqs[i][k] && seqs[i][k] in AminoWeights && seqs[i][k] in AminoBrutto
    {
      TablesShareKeys(seqs[i][k]);
    }
  }

  /**
   * What procedure `p` returns on canonical sequences: one result per
   * sequence. The only failure is codon optimisation for an unsupported
   * cell type.
   */
  function Run(p: Procedure, seqs: seq<string>, cellType: Option<string>): (r: Result<Analysis, Error>)
    requires forall i :: 0 <= i < |seqs| ==> IsCanonical(seqs[i])
    ensures r.Err? <==> p == CodonOptimization && P.OrganismTable(cellType).None?
    ensures r.Err? ==> r.error == UnsupportedOrganism(cellType)
    ensures r.Ok? ==> r.value.Size() == |seqs|
  {
    CanonicalInTables(seqs);
    match p
    case MolecularWeight => Ok(Weights(seq(|seqs|, i requires 0 <= i < |seqs| => P.TotalWeight(seqs[i]))))
    case OneLetterToThree => Ok(ThreeLetterSeqs(seq(|seqs|, i requires 0 <= i < |seqs| => P.ThreeLetterCode(seqs[i]))))
    case GetAminoAcidSum => Ok(AminoAcidSums(seq(|seqs|, i requires 0 <= i < |seqs| => P.AminoAcidCounts(seqs[i]))))
    case CodonOptimization =>
      (match P.OrganismTable(cellType)
       case None => Err(UnsupportedOrganism(cellType))
       case Some(table) => Ok(CodonSeqs(seq(|seqs|, i requires 0 <= i < |seqs| => P.CodonSequence(table, seqs[i])))))
    case Length => Ok(Lengths(P.Length(seqs)))
    case BruttoCount => Ok(BruttoFormulas(seq(|seqs|, i requires 0 <= i < |seqs| => P.BruttoFormula(seqs[i]))))
  }

  /**
   * `protein_analysis`: normalisation first, so that its errors win over an
   * unknown procedure name; then the registry lookup; then the procedure.
   * Only one-letter input can raise the advisory, and a call only succeeds
   * for input that normalises and a registered procedure name.
   */
  function Analyze(seqs: seq<string>, procedure: string, cellType: Option<string>, letterFormat: int)
    : (r: Report)
    ensures r.warned ==> letterFormat == 1 && N.Normalize(seqs, 1).Ok?
    ensures r.result.Ok? ==> N.Normalize(seqs, letterFormat).Ok? && Lookup(procedure).Some?
  {
    match N.Normalize(seqs, letterFormat)
    case Err(e) => Report(false, Err(e))
    case Ok(normalized) =>
      match Lookup(procedure)
      case None => Report(normalized.advisory, Err(UnknownProcedure(procedure)))
      case Some(p) => Report(normalized.advisory, Run(p, normalized.seqs, cellType))
  }

  /** `protein_analysis` as the tool runs it, calling the normaliser and the procedures in turn. */
  method ProteinAnalysis(seqs: seq<string>, procedure: string, cellType: Option<string>, letterFormat: int)
    returns (r: Report)
    ensures r == Analyze(seqs, procedure, cellType, letterFormat)
  {
    var normalized := N.NameTransform(seqs, letterFormat);
    if normalized.Err? {
      return Report(false, Err(normalized.error));
    }
    var aminoAcidSeqs := normalized.value.seqs;
    var advisory := normalized.value.advisory;
    var p := Lookup(procedure);
    if p.None? {
      return Report(advisory, Err(UnknownProcedure(procedure)));
    }
    assert Analyze(seqs, procedure, cellType, letterFormat) == Report(advisory, Run(p.value, aminoAcidSeqs, cellType));
    var result := RunProcedure(p.value, aminoAcidSeqs, cellType);
    r := Report(advisory, result);
  }

  /** The call of the looked-up procedure on the normalised sequences. */
  method RunProcedure(p: Procedure, aminoAcidSeqs: seq<string>, cellType: Option<string>)
    returns (r: Result<Analysis, Error>)
    requires forall i :: 0 <= i < |aminoAcidSeqs| ==> IsCanonical(aminoAcidSeqs[i])
    ensures r == Run(p, aminoAcidSeqs, cellType)
  {
    CanonicalInTables(aminoAcidSeqs);
    match p
    case MolecularWeight =>
      var w := P.MolecularWeight(aminoAcidSeqs);
      assert w == seq(|aminoAcidSeqs|, i requires 0 <= i < |aminoAcidSeqs| => P.TotalWeight(aminoAcidSeqs[i]));
      r := Ok(Weights(w));
    case OneLetterToThree =>
      var t := P.OneLetterToThree(aminoAcidSeqs);
      assert t == seq(|aminoAcidSeqs|, i requires 0 <= i < |aminoAcidSeqs| => P.ThreeLetterCode(aminoAcidSeqs[i]));
      r := Ok(ThreeLetterSeqs(t));
    case GetAminoAcidSum =>
      var c := P.GetAminoAcidSum(aminoAcidSeqs);
      assert c == seq(|aminoAcidSeqs|, i requires 0 <= i < |aminoAcidSeqs| => P.AminoAcidCounts(aminoAcidSeqs[i]));
      r := Ok(AminoAcidSums(c));
    case CodonOptimization =>
      var d := P.CodonOptimization(aminoAcidSeqs, cellType);
      if d.Err? {
        return Err(d.error);
      }
      var table := P.OrganismTable(cellType).value;
      assert d.value == seq(|aminoAcidSeqs|, i requires 0 <= i < |aminoAcidSeqs| => P.CodonSequence(table, aminoAcidSeqs[i]));
      r := Ok(CodonSeqs(d.value));
    case Length =>
      r := Ok(Lengths(P.Length(aminoAcidSeqs)));
    case BruttoCount =>
      var b := P.BruttoCount(aminoAcidSeqs);
      assert b == seq(|aminoAcidSeqs|, i requires 0 <= i < |aminoAcidSeqs| => P.BruttoFormula(aminoAcidSeqs[i]));
      r := Ok(BruttoFormulas(b));
  }

  /**
   * Error precedence: a normalisation error (an invalid residue or an
   * unsupported format) is reported whatever the procedure name and cell
   * type; an unknown procedure name is reported only for input that
   * normalises, and then whatever the cell type.
   */
  lemma ErrorPrecedence(seqs: seq<string>, procedure: string, cellType: Option<string>, letterFormat: int)
    ensures N.Normalize(seqs, letterFormat).Err? ==>
      Analyze(seqs, procedure, cellType, letterFormat).result == Err(N.Normalize(seqs, letterFormat).error)
    ensures Analyze(seqs, procedure, cellType, letterFormat).result == Err(UnknownProcedure(procedure)) <==>
      N.Normalize(seqs, letterFormat).Ok? && Lookup(procedure).None?
  {
    if N.Normalize(seqs, letterFormat).Err? {
      var e := N.Normalize(seqs, letterFormat).error;
      if letterFormat == 1 {
        N.OneLetterFormatError(seqs);
      } else if letterFormat == 3 {
        N.ThreeLetterFormatError(seqs);
      }
      assert !e.UnknownProcedure?;
    }
  }

  /**
   * The advisory is printed while normalising, before the procedure is
   * looked up or run: whether it is printed depends on neither the
   * procedure name nor the cell type, and holds also when the call then fails.
   */
  lemma WarningPrecedesProcedure(seqs: seq<string>, p1: string, p2: string, c1: Option<string>, c2: Option<string>, letterFormat: int)
    ensures Analyze(seqs, p1, c1, letterFormat).warned == Analyze(seqs, p2, c2, letterFormat).warned
    ensures Analyze(seqs, p1, c1, letterFormat).warned <==>
      N.Normalize(seqs, letterFormat).Ok? && N.Normalize(seqs, letterFormat).value.advisory
  {
  }

  /** "ALA" as one-letter input prints the advisory, and the advisory stays printed when the procedure name is unknown. */
  lemma WarnedThenUnknownProcedure()
    ensures Analyze(["ALA"], "foo", None, 1) == Report(true, Err(UnknownProcedure("foo")))
  {
    N.AlaIsAdvised();
    assert Lookup("foo") == None;
  }

  /**
   * An unsupported cell type is an error only for codon optimisation, and
   * there it is one for every input that normalises, even no sequence at
   * all; every other procedure ignores the cell type.
   */
  lemma CellTypeOnlyMattersForCodons(seqs: seq<string>, procedure: string, c1: Option<string>, c2: Option<string>, letterFormat: int)
    ensures procedure != "codon_optimization" ==>
      Analyze(seqs, procedure, c1, letterFormat) == Analyze(seqs, procedure, c2, letterFormat)
    ensures procedure == "codon_optimization" && N.Normalize(seqs, letterFormat).Ok? ==>
      (Analyze(seqs, procedure, c1, letterFormat).result == Err(UnsupportedOrganism(c1)) <==>
       !(c1.Some? && c1.value in P.CellTypes))
  {
    if N.Normalize(seqs, letterFormat).Ok? && Lookup(procedure).Some? {
      var n := N.Normalize(seqs, letterFormat).value;
      var p := Lookup(procedure).value;
      if procedure != "codon_optimization" {
        RunIgnoresCellType(p, n.seqs, c1, c2);
      } else {
        assert p == CodonOptimization;
        if P.OrganismTable(c1).Some? {
          assert Analyze(seqs, procedure, c1, letterFormat).result.Ok?;
        }
      }
    }
  }

  /** Only codon optimisation reads the cell type. */
  lemma RunIgnoresCellType(p: Procedure, seqs: seq<string>, c1: Option<string>, c2: Option<string>)
    requires forall i :: 0 <= i < |seqs| ==> IsCanonical(seqs[i])
    requires p != CodonOptimization
    ensures Run(p, seqs, c1) == Run(p, seqs, c2)
  {
  }

  /** On success there is one result per input sequence, in the same order. */
  lemma ResultsAlignWithInput(seqs: seq<string>, procedure: string, cellType: Option<string>, letterFormat: int)
    requires Analyze(seqs, procedure, cellType, letterFormat).result.Ok?
    ensures Analyze(seqs, procedure, cellType, letterFormat).result.value.Size() == |seqs|
  {
    var n := N.Normalize(seqs, letterFormat).value;
    assert Analyze(seqs, procedure, cellType, letterFormat).result == Run(Lookup(procedure).value, n.seqs, cellType);
  }

  /** `protein_analysis("A", "C", procedure="length")` is [1, 1], with no advisory. */
  lemma LengthExample()
    ensures Analyze(["A", "C"], "length", None, 1) == Report(false, Ok(Lengths([1, 1])))
  {
    AcNormalizes();
    AcLengths();
    assert Lookup("length") == Some(Length);
  }

  /** "A" and "C" are canonical and too short to raise the advisory. */
  lemma AcNormalizes()
    ensures N.Normalize(["A", "C"], 1) == Ok(N.Normalized(["A", "C"], false))
  {
    assert IsCanonical("A") && IsCanonical("C");
    N.CanonicalOneLetter(["A", "C"]);
    assert !N.IsLengthDivisibleBy3(["A", "C"][0]);
  }

  /** `length` of "A" and "C" is [1, 1]. */
  lemma AcLengths()
    ensures IsCanonical("A") && IsCanonical("C")
    ensures Run(Length, ["A", "C"], None) == Ok(Lengths([1, 1]))
  {
    assert IsCanonical("A") && IsCanonical("C");
    assert P.Length(["A", "C"]) == [1, 1];
  }

  /** Codon optimisation of alanine for E. coli gives GCG. */
  lemma CodonExample()
    ensures Analyze(["A"], "codon_optimization", Some("E.coli"), 1) == Report(false, Ok(CodonSeqs(["GCG"])))
  {
    assert IsCanonical("A");
    N.CanonicalOneLetter(["A"]);
    assert !N.IsLengthDivisibleBy3(["A"][0]);
    assert Lookup("codon_optimization") == Some(CodonOptimization);
    EcoliAlanine();
  }

  /** The E. coli codon for alanine is GCG. */
  lemma EcoliAlanine()
    ensures Run(CodonOptimization, ["A"], Some("E.coli")) == Ok(CodonSeqs(["GCG"]))
  {
    assert P.OrganismTable(Some("E.coli")) == Some(EcoliTriplets);
    assert EcoliTriplets['A'] == "GCG";
    assert "A" == ['A'];
    CodonsOfOneResidue(Some("E.coli"), 'A');
  }

  /** Codon optimisation of a one-residue sequence gives that residue's triplet. */
  lemma CodonsOfOneResidue(cellType: Option<string>, c: char)
    requires P.OrganismTable(cellType).Some? && IsCode(c)
    ensures IsCanonical([c])
    ensures Run(CodonOptimization, [[c]], cellType) == Ok(CodonSeqs([P.OrganismTable(cellType).value[c]]))
  {
    var table := P.OrganismTable(cellType).value;
    P.CodonSequenceOfOne(table, c);
    assert seq(1, i requires 0 <= i < 1 => P.CodonSequence(table, [[c]][i])) == [table[c]];
  }

  /** Codon optimisation for an organism outside the six aliases is an error. */
  lemma UnknownOrganismExample()
    ensures Analyze(["A"], "codon_optimization", Some("Unknown"), 1) == Report(false, Err(UnsupportedOrganism(Some("Unknown"))))
  {
    assert IsCanonical("A");
    N.CanonicalOneLetter(["A"]);
    assert Lookup("codon_optimization") == Some(CodonOptimization);
    assert P.OrganismTable(Some("Unknown")) == None;
  }

  /** The weight of a lone alanine is 89.09 Da, held as 8909 hundredths of a dalton. */
  lemma WeightExample()
    ensures Analyze(["A"], "molecular_weight", None, 1) == Report(false, Ok(Weights([8909])))
  {
    assert IsCanonical("A");
    N.CanonicalOneLetter(["A"]);
    assert !N.IsLengthDivisibleBy3(["A"][0]);
    assert Lookup("molecular_weight") == Some(MolecularWeight);
    AlanineWeight();
  }

  /** Alanine weighs 8909 hundredths of a dalton. */
  lemma AlanineWeight()
    ensures Run(MolecularWeight, ["A"], None) == Ok(Weights([8909]))
  {
    assert IsCanonical("A");
    assert P.TotalWeight("A") == 8909 by {
      assert UpperChar('A') == 'A' && AminoWeights['A'] == 8909;
      assert "A"[..0] == "";
    }
    assert seq(|["A"]|, i requires 0 <= i < |["A"]| => P.TotalWeight(["A"][i])) == [8909];
  }
}
