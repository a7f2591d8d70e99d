/** Keys of a channel's shared context, and who may write which. */
module SharedContext {
  import opened Prelude
  import opened Text

  /** Namespaces that generic context writes are refused in. */
  predicate Reserved(key: string) {
    var trimmed := Trim(key);
    "workflow." <= trimmed || "internal." <= trimmed
  }

  /** The key of the record for one ordinal under a namespace. */
  function OrdinalKey(prefix: string, ordinal: nat): string { prefix + Decimal(ordinal) }

  lemma OrdinalKeyInjective(prefix: string, a: nat, b: nat)
    ensures OrdinalKey(prefix, a) == OrdinalKey(prefix, b) <==> a == b
    ensures prefix < OrdinalKey(prefix, a)
  {
    if OrdinalKey(prefix, a) == OrdinalKey(prefix, b) {
      PrefixedDecimalInjective(prefix, a, b);
    }
    assert OrdinalKey(prefix, a)[..|prefix|] == prefix;
  }

  lemma PrefixTransitive(a: string, b: string, c: string)
    ensures a <= b && b <= c ==> a <= c
  {
  }

  /** A generic write is stored under the trimmed key, which never lies in a workflow or internal namespace. */
  lemma GenericWriteStaysOut(raw: string, prefix: string)
    requires !Reserved(raw) && ("workflow." <= prefix || "internal." <= prefix)
    ensures !(prefix <= Trim(raw))
  {
    PrefixTransitive("workflow.", prefix, Trim(raw));
    PrefixTransitive("internal.", prefix, Trim(raw));
  }
}
