/**
 * The part of the supergraph validation context the rule uses: the number
 * of subgraphs, the lookup from subgraph id to display name, and the error
 * sink, which rules only ever append to.
 */
module ValidationContext {

  /** A reported error: its message and its `extensions.code`. */
  datatype ValidationError = ValidationError(message: string, code: string)

  class Context {
    /** `subgraphStates.size`. */
    const subgraphCount: nat
    /** `graphIdToName`, a lookup the rule does not interpret. */
    const graphIdToName: string -> string
    /** Every error reported so far, oldest first. */
    var errors: seq<ValidationError>

    constructor (subgraphCount: nat, graphIdToName: string -> string)
      ensures this.subgraphCount == subgraphCount && this.graphIdToName == graphIdToName
      ensures errors == []
    {
      this.subgraphCount := subgraphCount;
      this.graphIdToName := graphIdToName;
      errors := [];
    }

    /** `reportError`: the error is added after all earlier ones. */
    method ReportError(e: ValidationError)
      modifies this
      ensures errors == old(errors) + [e]
    {
      errors := errors + [e];
    }
  }
}
