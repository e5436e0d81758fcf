/**
 * Type tokens of JVM field and method descriptors (sections 4.3.2 and 4.3.3 of
 * the Java Virtual Machine Specification, SE 8). Descriptor strings are not
 * parsed here: callers hand over the parameter and return tokens directly.
 */
module Descriptors {

  /** One descriptor token: a base type, `V` (return types only), or a reference/array type. */
  datatype JType =
    | Byte | Char | Double | Float | Int | Long | Short | Boolean
    | Void
    | Ref(desc: string)  // `Lpkg/Name;` or `[...`, kept as its descriptor token

  /** The descriptor token of a type. */
  function Token(t: JType): (r: string)
    ensures WellFormed(t) ==> (|r| == 1 <==> !t.Ref?)
    ensures !t.Ref? ==> |r| == 1
  {
    match t
    case Byte => "B"
    case Char => "C"
    case Double => "D"
    case Float => "F"
    case Int => "I"
    case Long => "J"
    case Short => "S"
    case Boolean => "Z"
    case Void => "V"
    case Ref(d) => d
  }

  /** A reference token is a class token `L...;` or an array token `[...`, never one character long. */
  predicate WellFormed(t: JType) {
    t.Ref? ==> |t.desc| >= 2 && (t.desc[0] == 'L' || t.desc[0] == '[')
  }

  /**
   * The string tests that every routine of the core performs on a token:
   * each one-letter base type by name, `V`, and everything else a reference or array.
   */
  function Classify(token: string): (t: JType)
    ensures Token(t) == token
  {
    if token == "B" then Byte
    else if token == "C" then Char
    else if token == "D" then Double
    else if token == "F" then Float
    else if token == "I" then Int
    else if token == "J" then Long
    else if token == "S" then Short
    else if token == "Z" then Boolean
    else if token == "V" then Void
    else Ref(token)
  }

  /** Classifying the token of a well-formed type gives the type back. */
  lemma ClassifyToken(t: JType)
    requires WellFormed(t)
    ensures Classify(Token(t)) == t
  {
  }

  /** The eight base types of section 4.3.2 (not `V`, not references). */
  predicate IsPrimitive(t: JType) {
    !t.Ref? && t != Void
  }

  /** long and double: category-2 values that take two local-variable slots (section 2.6.1). */
  predicate IsWide(t: JType) {
    t == Long || t == Double
  }

  /** Number of local-variable slots a parameter of type `t` takes. */
  function Width(t: JType): nat {
    if IsWide(t) then 2 else 1
  }

  /** Total slot width of a parameter list, summed from the front. */
  function SlotSum(ps: seq<JType>): nat {
    if ps == [] then 0 else SlotSum(ps[..|ps| - 1]) + Width(ps[|ps| - 1])
  }

  /** The computational type a primitive has on the operand stack: byte, char, short and boolean are ints. */
  function StackKind(t: JType): JType {
    if t == Long || t == Double || t == Float then t else Int
  }

  function Tokens(ps: seq<JType>): string {
    if ps == [] then "" else Token(ps[0]) + Tokens(ps[1..])
  }

  /** The method descriptor `(` parameter tokens `)` return token. */
  function MethodDescriptor(params: seq<JType>, ret: JType): string {
    "(" + Tokens(params) + ")" + Token(ret)
  }
}
