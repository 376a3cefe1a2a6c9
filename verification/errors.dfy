/** The exceptions the modelled scripts can raise. Python built-in exceptions
    come first, then the client errors the Neo4j server returns for the Cypher
    statements that the scripts assemble. */
module Errors {

  datatype Error =
    /** `d[k]` on a dict without key `k`; `key` is Python's str() of the key. */
    | KeyError(key: string)
    /** Subscripting a non-dict, hashing a list or dict, iterating a scalar. */
    | TypeError(what: string)
    /** A method called on a value that does not have it (`.get`, `.lower`, `.split`). */
    | AttributeError(attribute: string)
    /** `range()` with a zero step. */
    | ValueError(what: string)
    /** The Neo4j driver packing an integer outside the signed 64-bit range. */
    | OverflowError(what: string)
    /** A label, relationship type or property key spliced into a Cypher
        statement that is not a plain Cypher identifier. */
    | CypherSyntaxError(token: string)
    /** A `$name` parameter the statement uses but the call did not pass. */
    | ParameterMissing(name: string)
    /** `MERGE` on a pattern whose property value is null. */
    | NullPropertyMerge(property: string)
    /** A property value Neo4j cannot store: a map, or a list holding a map,
        a list, a null or items of different kinds. */
    | CypherTypeError(property: string)
    /** A value the model does not give Cypher semantics to (see README). */
    | Unsupported(what: string)
}
