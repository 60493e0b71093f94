# Protein analysis tool — a verified model

This project models the core of `protein_analysis_tool.py`: the single entry
point `protein_analysis`, which normalises protein sequences and then runs
one of six procedures on them.

**Normalisation (`name_transform`).**
- Format 1 takes one-letter input. It is upper-cased, and every letter must be a residue code.
- Format 3 takes three-letter input. It is lower-cased, cut into triplets, and each triplet must be a residue name; the triplets are then replaced by their one-letter codes.
- Any other format is an error.
- Format 1 can also raise an advisory: every sequence has a length divisible by three, and its first triplet spells a residue name.

**Procedures.** They run on the normalised sequences:
- molecular weight;
- three-letter spelling;
- per-residue counts;
- codon-optimised DNA for three organisms;
- length;
- brutto (elemental) formula.

**Modules.** There is one per part of the tool:

- `Residues` holds the lookup tables of the tool as constant maps:
  - one-letter code to three-letter code, and the lower-case inverse;
  - residue weights;
  - brutto rows;
  - the three codon tables.

  It also proves that the tables fit together: shared keys, codon tables made of A/C/G/T triplets, and the two name maps being inverses.
- `Validator` is `is_amino_acid`.
- `Normalizer` covers:
  - `name_transform`, as a method with its loops, proved against the function `Normalize`;
  - `is_length_divisible_by_3`;
  - `is_amino_acid_three_letter`, also as a method with its loop.
- `Procedures` holds the six procedures. Each procedure that loops is a method, proved against a function that defines its result; the lemmas state what those results mean.
- `Dispatcher` is `protein_analysis`: the procedure registry, the order in which errors are reported, and the call. One call gives a `Report`: whether the advisory was printed, and the results or the error raised. The advisory is printed during normalisation, before the procedure name is looked up. So it is also reported when the call then fails on an unknown procedure name or an unsupported cell type.
- `RoundTrip` proves that spelling canonical sequences in three-letter code and normalising them as format 3 gives them back.

**Representation choices.**
- Errors are values (`Errors.Error`), returned through `Result`, not exceptions.
- The cell type is an `Option<string>`.
- Weights are whole numbers of hundredths of a dalton. The weight table is written in daltons with exactly two decimals, so this representation is exact.

**Where the model follows the code as written.**
- Threonine's brutto row has six numbers, one more than the other rows. `zip(*rows)` truncates to the shortest row. So each threonine contributes C4 H9 N11 O1 S3: "TT" gives C8 H18 N22 O2 S6. A sequence that also holds another residue gets five sums from the first five columns as well. `ThreonineBrutto` pins this down.
- The brutto formula of the empty sequence is the empty map.
- The advisory looks only at the first triplet of each sequence: `is_amino_acid_three_letter` returns from the first iteration of its loop. `AdvisoryChecksOnlyFirstTriplet` shows a sequence that raises the advisory but is not valid three-letter input.
- On no sequences at all, the advisory is raised, because `all([])` is true.

## Model

| member | source | states |
|---|---|---|
| Residues.CodesAreTheKeys | protein_analysis_tool.py:1-22 | the twenty one-letter codes are exactly the keys of the short-name table, each listed once |
| Residues.TablesShareKeys | protein_analysis_tool.py:70-183 | the weight, brutto and three codon tables are keyed by exactly the twenty codes, all upper-case letters |
| Residues.CodonTablesWellFormed | protein_analysis_tool.py:116-183 | each codon table maps every residue, and only residues, to a triplet over A, C, G, T |
| Residues.BruttoRowLengths | protein_analysis_tool.py:93-114 | every brutto row has five entries except threonine's, which has six |
| Residues.ShortNameRoundTrip | protein_analysis_tool.py:1-45 | a residue's three-letter code has three characters, the first an upper-case letter, and lower-cased it is a key of the name table that leads back to the residue |
| Residues.NameRoundTrip | protein_analysis_tool.py:1-45 | every key of the name table has three characters, none of them an upper-case letter, and it is the lower-cased three-letter code of the residue it names |
| Validator.IsAminoAcid | protein_analysis_tool.py:377-398 | an accepted token has one or three characters: a single character is an upper-case letter, and a three-character token holds no upper-case letter |
| Validator.IsAminoAcidIffResidueToken | protein_analysis_tool.py:377-398 | a token is accepted exactly when it is a one-letter code or a lower-case three-letter name; every other length is rejected |
| Validator.IsAminoAcidIsCaseSensitive | protein_analysis_tool.py:387-396 | a lower-case one-letter code and a capitalised three-letter name are rejected, while their canonical forms are accepted |
| Normalizer.Triplets | protein_analysis_tool.py:362 | there are no chunks exactly for the empty string; every chunk has one to three characters, and all but the last have three |
| Normalizer.IsLengthDivisibleBy3 | protein_analysis_tool.py:421-433 | true exactly when the triplets of the sequence cover it exactly, three characters each |
| Normalizer.FirstTripletIsName | protein_analysis_tool.py:436-451 | true exactly when the sequence has at least three characters and its first three, lower-cased, are a key of the name table |
| Normalizer.IsAminoAcidThreeLetter | protein_analysis_tool.py:436-451 | the loop returns true exactly when the lower-cased sequence is non-empty and its first triplet is a residue name |
| Normalizer.DecodeThreeLetter | protein_analysis_tool.py:361-369 | a successful three-letter decoding yields only one-letter residue codes; a failure names a token the validator rejects |
| Normalizer.NormalizeOneLetter | protein_analysis_tool.py:343-358 | on success there is one sequence per input sequence, made only of codes; an error names a single character that is not a code |
| Normalizer.NormalizeThreeLetter | protein_analysis_tool.py:359-370 | on success there is one sequence per input sequence, made only of codes, and never the advisory; an error names a token the validator rejects |
| Normalizer.Normalize | protein_analysis_tool.py:329-374 | on success there is one normalised sequence per input sequence, made only of one-letter codes; only format 1 can raise the advisory; every error is an invalid residue or this call's unsupported format |
| Normalizer.NameTransform | protein_analysis_tool.py:329-374 | the method's result, errors included, is `Normalize` for every format |
| Normalizer.TransformOneLetter | protein_analysis_tool.py:343-358 | the format-1 loop returns the same result or error as `Normalize(seqs, 1)` |
| Normalizer.FirstInvalidLetter | protein_analysis_tool.py:348-352 | finds the first letter the validator rejects, or reports that there is none |
| Normalizer.FindInvalidTriplet | protein_analysis_tool.py:363-367 | finds the first triplet the validator rejects, or reports that there is none |
| Normalizer.TransformThreeLetter | protein_analysis_tool.py:359-370 | the format-3 loop returns the same result or error as `Normalize(seqs, 3)` |
| Normalizer.OneLetterLoopResult | protein_analysis_tool.py:343-358 | the sequences and flags the format-1 loop has built, once every letter passed, are the result `Normalize` specifies, the advisory included |
| Normalizer.OneLetterSuccess | protein_analysis_tool.py:343-358 | when every upper-cased letter is valid, format 1 returns the upper-cased sequences with the advisory flag |
| Normalizer.ThreeLetterLoopResult | protein_analysis_tool.py:359-370 | the sequences the format-3 loop has built, once every sequence decoded, are the result `Normalize` specifies |
| Normalizer.DecodesWhenTripletsValid | protein_analysis_tool.py:363-368 | once every triplet passes the validator, each is a key of the name table and the sequence decodes to their one-letter codes |
| Normalizer.ThreeLetterSuccess | protein_analysis_tool.py:359-370 | when every sequence decodes, format 3 returns the decoded sequences and no advisory |
| Normalizer.OneLetterErrorAt | protein_analysis_tool.py:344-352 | the error names the first rejected letter, in reading order across all sequences |
| Normalizer.ThreeLetterErrorAt | protein_analysis_tool.py:360-367 | the error names the first rejected triplet, in reading order across all sequences |
| Normalizer.ResidueLetterIsCode | protein_analysis_tool.py:387-391 | the validator accepts a single character exactly when it is one of the twenty codes |
| Normalizer.OneLetterFormatSucceedsIff | protein_analysis_tool.py:343-358 | format 1 succeeds exactly when every upper-cased character is a code; the result then keeps the shape of the input, letter by letter upper-cased |
| Normalizer.CanonicalOneLetter | protein_analysis_tool.py:343-358 | canonical input passes format 1 unchanged |
| Normalizer.OneLetterFormatError | protein_analysis_tool.py:344-352 | a format-1 error names a character that is not a code, and every character before it is a code |
| Normalizer.TripletsShape | protein_analysis_tool.py:362 | the chunks are the consecutive triplets, plus a shorter last chunk when the length is not a multiple of three |
| Normalizer.ValidChunksAreNames | protein_analysis_tool.py:363-368 | once every chunk of a lower-cased sequence passes the validator, every chunk is a key of the name table, so the lookup cannot miss |
| Normalizer.ThreeLetterDecodeIff | protein_analysis_tool.py:361-368 | a sequence decodes exactly when its length is a multiple of three and every lower-cased triplet is a residue name; the k-th code is then the k-th triplet's residue |
| Normalizer.ShortTailFails | protein_analysis_tool.py:362-367 | a length that is not a multiple of three leaves a short last chunk, which is rejected |
| Normalizer.ThreeLetterFormatError | protein_analysis_tool.py:360-367 | a format-3 error names a rejected triplet, and every earlier sequence and triplet was accepted |
| Normalizer.FirstUndecodable | protein_analysis_tool.py:360-367 | the format-3 error is the error of the first sequence that does not decode |
| Normalizer.FirstInvalidTriplet | protein_analysis_tool.py:363-367 | a sequence's decoding error names its first triplet the validator rejects |
| Normalizer.UnsupportedFormatIff | protein_analysis_tool.py:343-374 | the unsupported-format error happens exactly for formats other than 1 and 3 |
| Normalizer.AdvisoryIff | protein_analysis_tool.py:345-357 | the advisory fires exactly when every sequence has a length that is a positive multiple of three, with a residue name as its first three letters |
| Normalizer.AdvisoryChecksOnlyFirstTriplet | protein_analysis_tool.py:436-451 | "ALAAAA" raises the advisory even though its second triplet is not a residue |
| Normalizer.AlaaaaIsNotThreeLetter | protein_analysis_tool.py:360-367 | read as format 3, "ALAAAA" is rejected at the triplet "aaa" |
| Normalizer.AlaIsAdvised | protein_analysis_tool.py:343-357 | "ALA" read as format 1 passes unchanged and raises the advisory |
| Normalizer.AdvisoryOnEmptyInput | protein_analysis_tool.py:354 | no sequences at all raise the advisory, and a single empty sequence does not |
| Normalizer.ThreeLetterExamples | protein_analysis_tool.py:360-370 | "Ala" and "ala" both normalise to "A" |
| Normalizer.InvalidLetterExample | protein_analysis_tool.py:348-352 | "X" is rejected as an invalid residue |
| Normalizer.LowerCaseLettersExample | protein_analysis_tool.py:347-353 | lower-case one-letter input is upper-cased |
| Procedures.JoinOfTriplets | protein_analysis_tool.py:265 | joining three-character parts gives three times as many characters, with the k-th part at position 3k |
| Procedures.TotalWeight | protein_analysis_tool.py:241-246 | a sequence of n residues weighs between n times glycine's weight and n times tryptophan's weight |
| Procedures.MolecularWeight | protein_analysis_tool.py:230-247 | one weight per sequence, each the total residue weight of that sequence |
| Procedures.SequenceWeight | protein_analysis_tool.py:242-245 | the inner loop adds up the upper-cased residues' weights |
| Procedures.TotalWeightAdditive | protein_analysis_tool.py:241-246 | the weight of a concatenation is the sum of the weights |
| Procedures.OneLetterToThree | protein_analysis_tool.py:250-266 | one spelling per sequence, each the concatenated three-letter codes of its upper-cased letters |
| Procedures.SpellThreeLetter | protein_analysis_tool.py:261-264 | the inner loop lists the three-letter codes of the upper-cased letters in order |
| Procedures.ThreeLetterCode | protein_analysis_tool.py:259-266 | the spelling is three times as long as the sequence |
| Procedures.ThreeLetterCodeShape | protein_analysis_tool.py:259-266 | the spelling is three times as long as the sequence, and its k-th triplet is the code of the k-th letter |
| Procedures.AminoAcidCounts | protein_analysis_tool.py:269-284 | the keys are exactly the twenty codes, and a count is positive exactly when the code occurs in the sequence |
| Procedures.GetAminoAcidSum | protein_analysis_tool.py:269-284 | one count map per sequence, each counting every residue's occurrences |
| Procedures.CountResidues | protein_analysis_tool.py:280-282 | the map starts at zero for all twenty codes and, after the loop, holds each code's number of occurrences |
| Procedures.CountsOfEmpty | protein_analysis_tool.py:280 | before any residue is read, every one of the twenty codes counts 0 |
| Procedures.CountsOfPrefix | protein_analysis_tool.py:281-282 | reading the next residue raises its count by one in the counts of the prefix before it |
| Procedures.CountsSnoc | protein_analysis_tool.py:282 | appending a residue raises its own count by one and leaves the others unchanged |
| Procedures.SumAtBump | protein_analysis_tool.py:282 | raising one key by one raises a sum over distinct keys by one exactly when the key is among them |
| Procedures.AminoAcidCountsSumToLength | protein_analysis_tool.py:269-284 | the count map has exactly the twenty codes as keys, and its counts add up to the sequence length |
| Procedures.OrganismTable | protein_analysis_tool.py:298-302 | a table is chosen exactly for the six supported cell-type names, and it covers every residue |
| Procedures.OrganismTableWellFormed | protein_analysis_tool.py:298-300 | the chosen table is a codon table |
| Procedures.CodonOptimization | protein_analysis_tool.py:287-314 | succeeds exactly for a supported cell type, otherwise reports that cell type as unsupported; on success there is one DNA string per sequence from the chosen table |
| Procedures.CodonSequence | protein_analysis_tool.py:305-310 | with a table of triplets, the DNA is three times as long as the sequence |
| Procedures.OptimizeSequence | protein_analysis_tool.py:306-309 | the inner loop concatenates each residue's triplet in order |
| Procedures.CodonSequenceOfOne | protein_analysis_tool.py:307-309 | the DNA of a single residue is its triplet |
| Procedures.CodonSequenceShape | protein_analysis_tool.py:305-310 | the DNA is three times as long as the sequence, its k-th triplet is the k-th residue's codon, and it holds only A, C, G and T |
| Procedures.Length | protein_analysis_tool.py:316-326 | one number per sequence, each the number of characters of that sequence |
| Procedures.AminoAcidSumMatchesLength | protein_analysis_tool.py:316-326 | for every sequence, the counts of `get_amino_acid_sum` add up to what `length` reports |
| Procedures.MinLength | protein_analysis_tool.py:414 | the length of the shortest row |
| Procedures.Transpose | protein_analysis_tool.py:414 | the columns stop at the shortest row, and column j holds the j-th entry of every row |
| Procedures.ZipToMapDistinct | protein_analysis_tool.py:416 | `ZipToMap`, the model of `dict(zip(keys, values))`: with distinct keys, the map has the keys up to the shorter length, each paired with its own value |
| Procedures.BruttoFormula | protein_analysis_tool.py:412-417 | the empty sequence gives the empty map, and any other sequence gives exactly the keys C, H, N, O, S |
| Procedures.BruttoCount | protein_analysis_tool.py:401-418 | one formula per sequence, each `BruttoFormula` of that sequence |
| Procedures.ColumnSumIsElementCount | protein_analysis_tool.py:413-415 | a column sum of the rows is the element's count summed residue by residue |
| Procedures.BruttoSumsCountElements | protein_analysis_tool.py:413-415 | for a non-empty sequence, the first five column sums are the counts of C, H, N, O, S |
| Procedures.BruttoFormulaSpec | protein_analysis_tool.py:401-418 | the empty sequence gives the empty map; any other sequence gives exactly the keys C, H, N, O, S, each with its summed count |
| Procedures.ZipElements | protein_analysis_tool.py:410-416 | zipping the five elements with at least five sums keys each element to its own sum |
| Procedures.ElementCountAdditive | protein_analysis_tool.py:413-415 | element counts add up over concatenation |
| Procedures.BruttoFormulaAdditive | protein_analysis_tool.py:412-417 | the brutto formula of a concatenation of non-empty sequences is the element-wise sum of their formulas |
| Procedures.ThreonineBrutto | protein_analysis_tool.py:110 | "T" counts as C4 H9 N11 O1 S3, because its six-entry row is cut to five |
| Dispatcher.Lookup | protein_analysis_tool.py:214-223 | a found procedure is registered under exactly the name asked for |
| Dispatcher.LookupName | protein_analysis_tool.py:214-221 | each of the six procedures is found under its own name |
| Dispatcher.LookupIff | protein_analysis_tool.py:214-223 | a name is found exactly when some procedure is registered under it |
| Dispatcher.CanonicalInTables | protein_analysis_tool.py:1-114 | normalised sequences are unchanged by upper-casing and are keys of every residue table, so no procedure hits a missing key |
| Dispatcher.Run | protein_analysis_tool.py:224-227 | on normalised sequences the only failure is codon optimisation for an unsupported cell type, reported with that cell type; every other call returns one result per sequence |
| Dispatcher.Analyze | protein_analysis_tool.py:186-227 | the advisory is reported only for format 1 input that normalises; a call succeeds only for input that normalises and a registered procedure name |
| Dispatcher.ProteinAnalysis | protein_analysis_tool.py:186-227 | normalising, looking up and then calling the procedure methods gives `Analyze`: the same advisory flag and the same results or error |
| Dispatcher.RunProcedure | protein_analysis_tool.py:224-227 | calling the procedure methods gives `Run`, the unsupported-organism error included |
| Dispatcher.WarningPrecedesProcedure | protein_analysis_tool.py:213-227 | the advisory is reported exactly when normalisation succeeds with the advisory, whatever the procedure name or cell type, so it is reported even when the call then fails |
| Dispatcher.WarnedThenUnknownProcedure | protein_analysis_tool.py:213-223 | "ALA" as format 1 with the procedure "foo" reports the advisory and then the unknown-procedure error |
| Dispatcher.ErrorPrecedence | protein_analysis_tool.py:213-223 | a normalisation error wins over any procedure name; the unknown-procedure error happens exactly for input that normalises with an unregistered name |
| Dispatcher.CellTypeOnlyMattersForCodons | protein_analysis_tool.py:224-227 | every procedure except codon optimisation ignores the cell type; codon optimisation fails exactly for unsupported ones |
| Dispatcher.RunIgnoresCellType | protein_analysis_tool.py:226-227 | a procedure other than codon optimisation gives the same result for any two cell types |
| Dispatcher.ResultsAlignWithInput | protein_analysis_tool.py:186-227 | every successful call returns exactly one result per input sequence |
| Dispatcher.AcNormalizes | protein_analysis_tool.py:343-358 | "A" and "C" as format 1 pass unchanged, without the advisory |
| Dispatcher.AcLengths | protein_analysis_tool.py:316-326 | `length` on "A" and "C" gives [1, 1] |
| Dispatcher.LengthExample | protein_analysis_tool.py:316-326 | `length` on "A" and "C" gives [1, 1] with no advisory |
| Dispatcher.CodonExample | protein_analysis_tool.py:287-310 | codon optimisation of "A" for "E.coli" gives "GCG" |
| Dispatcher.EcoliAlanine | protein_analysis_tool.py:116-117 | the E. coli codon for alanine is "GCG" |
| Dispatcher.CodonsOfOneResidue | protein_analysis_tool.py:305-309 | for a supported cell type, a one-residue sequence becomes that residue's codon |
| Dispatcher.UnknownOrganismExample | protein_analysis_tool.py:302-314 | an unsupported cell type is reported as unsupported, with no advisory |
| Dispatcher.WeightExample | protein_analysis_tool.py:230-247 | "A" weighs 89.09 daltons, held as 8909 hundredths |
| Dispatcher.AlanineWeight | protein_analysis_tool.py:71 | the weight procedure on "A" gives alanine's table weight |
| RoundTrip.ThreeLetterRoundTrip | protein_analysis_tool.py:250-266 | the three-letter spelling of a canonical sequence is three times as long, and decoding it as format 3 gives the sequence back |
| RoundTrip.DecodesTo | protein_analysis_tool.py:360-369 | a string whose lower-cased triplets are the names of the letters of a sequence decodes, as format 3, to that sequence |
| RoundTrip.ThreeLetterChunks | protein_analysis_tool.py:362-368 | each lower-cased triplet of a spelling is the name of the residue it came from |
| RoundTrip.NormalizeRoundTrip | protein_analysis_tool.py:359-370 | normalising the spellings of canonical sequences as format 3 gives the sequences back, with no advisory |
| RoundTrip.AnalysisRoundTrip | protein_analysis_tool.py:186-227 | feeding the answer of `one_letter_to_three` back as format-3 input returns the normalised sequences; for format 1 these are the input upper-cased |

## Left out

- Procedures.MolecularWeight: does not divide by 1000 or round to two decimals. Floating point is not modelled, so the weight stays an exact number of hundredths of a dalton.
- The advisory's `print` is not modelled as output. Normalisation returns the advisory as a flag in its result instead.
- The text of the error messages is not modelled. Each error is a datatype value that carries the offending token, format, cell type or procedure name.
- `AMINO_NAMES_DIC_REVERSE` (lines 47-68) is not modelled, because no function of the tool reads it.
- Normalizer.OneLetterFormatSucceedsIff: case folding covers only ASCII letters, so the clause that the result keeps the input's length holds only for ASCII folding. In format 1, Python's `str.upper` turns "ı" into "I", "ſ" into "S", "ß" into "SS" and "ﬁ" into "FI". The tool accepts such input, sometimes with a longer sequence; the model rejects it (`Normalize(["ı"], 1)` is an invalid-residue error). `str.lower` in format 3 also maps other Unicode letters, which the model leaves unchanged.
- Python's variadic `*args` and keyword arguments are modelled as a sequence of strings and plain parameters.
- Procedures.MolecularWeight, OneLetterToThree, GetAminoAcidSum, CodonOptimization and BruttoCount `requires` their sequences to be keys of their tables. Called directly, the tool raises `KeyError` or `TypeError` on other input. Through `protein_analysis`, normalisation guarantees the keys (`Dispatcher.CanonicalInTables`).
- Types outside the signatures are not modelled, for example a non-string sequence or a non-integer format.
- The key order of the result dictionaries is not modelled, because Dafny maps are unordered. In Python, `get_amino_acid_sum` keeps the order of the short-name table, and `brutto_count` keeps the order C, H, N, O, S.
