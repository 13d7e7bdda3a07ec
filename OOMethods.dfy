/**
 * The operator-to-method-name tables of the java-oo runtime (`javaoo.OOMethods`).
 * Their contents are configuration outside this model, so they are a value the
 * resolver is given rather than constants.
 */
module OOMethods {

  datatype OpTables = OpTables(
    binary: map<string, string>,   // binary operator text, e.g. "+", to a method name, e.g. "add"
    unary: map<string, string>,    // prefix operator text, e.g. "-", to a method name, e.g. "negate"
    indexGet: string,              // the one method name for `a[i]` read
    indexSet: seq<string>,         // the method names tried, in order, for `a[i] = v`
    valueOf: string)               // the conversion factory for implicit conversion
}
