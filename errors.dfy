/** The `ValueError`s the analysis raises, one variant per cause (the message text is not modelled). */
module Errors {
  import opened Wrappers

  datatype Error =
    /** A one-letter character or a three-letter chunk that is not a residue code. */
    | InvalidResidue(token: string)
    /** A `letter_format` other than 1 or 3. */
    | UnsupportedFormat(letterFormat: int)
    /** A `cell_type` (possibly absent) that is not one of the six organism aliases. */
    | UnsupportedOrganism(cellType: Option<string>)
    /** A procedure name outside the registry of six procedures. */
    | UnknownProcedure(name: string)
}
