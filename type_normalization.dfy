/**
 * Non-null normalisation of an object-field argument's local type against
 * the type elected for the supergraph. A type string is non-null when it
 * ends in `!`; its base is what remains after removing one trailing `!`.
 * List modifiers are not interpreted: `[Int]!` has base `[Int]`.
 */
module TypeNormalization {

  /** `type.endsWith("!")`. */
  predicate IsNonNull(t: string)
  {
    |t| > 0 && t[|t| - 1] == '!'
  }

  /** `type.replace(/!$/, "")`: at most one trailing `!` removed. */
  function StripNonNull(t: string): (r: string)
    ensures IsNonNull(t) ==> r + "!" == t
    ensures !IsNonNull(t) ==> r == t
  {
    if IsNonNull(t) then t[..|t| - 1] else t
  }

  /** The two types agree once one trailing `!` is removed from each. */
  predicate SameBase(localType: string, supergraphType: string)
  {
    StripNonNull(localType) == StripNonNull(supergraphType)
  }

  /**
   * The type a subgraph's argument is compared under: a local type with the
   * supergraph type's base, where the supergraph type is non-null, becomes
   * the supergraph type (a nullable local `User` is read as `User!`); every
   * other local type is kept as written.
   */
  function Normalize(localType: string, supergraphType: string): (r: string)
    ensures SameBase(localType, supergraphType) && IsNonNull(supergraphType) ==> r == supergraphType
    ensures !(SameBase(localType, supergraphType) && IsNonNull(supergraphType)) ==> r == localType
    ensures StripNonNull(r) == StripNonNull(localType)
  {
    if SameBase(localType, supergraphType) then
      if IsNonNull(supergraphType) then
        if IsNonNull(localType) then localType else localType + "!"
      else localType
    else localType
  }

  /** Normalising a normalised type against the same supergraph type changes nothing. */
  lemma NormalizeIdempotent(localType: string, supergraphType: string)
    ensures Normalize(Normalize(localType, supergraphType), supergraphType) == Normalize(localType, supergraphType)
  {
  }

  /**
   * Local types that differ from a non-null supergraph type at most by its
   * trailing `!` all normalise to the same type.
   */
  lemma CompatibleLocalsAgree(a: string, b: string, supergraphType: string)
    requires IsNonNull(supergraphType)
    requires SameBase(a, supergraphType) && SameBase(b, supergraphType)
    ensures Normalize(a, supergraphType) == Normalize(b, supergraphType) == supergraphType
  {
  }

  /** Locals whose bases differ stay distinct after normalisation. */
  lemma DifferentBasesStayApart(a: string, b: string, supergraphType: string)
    requires StripNonNull(a) != StripNonNull(b)
    ensures Normalize(a, supergraphType) != Normalize(b, supergraphType)
  {
  }

  /** The example of the source's comment: `User` under `User!` reads as `User!`. */
  lemma NullableUpgradedUnderNonNull()
    ensures Normalize("User", "User!") == "User!"
    ensures Normalize("User", "String!") == "User"
    ensures Normalize("User!", "User") == "User!"
  {
  }
}
