/** `String.removeMnemonicsPlaceholder`: labels mark their mnemonic letter with '$', which is
    stripped before the label is shown. */
module Mnemonics {
  const Placeholder: char := '$'

  /** The label without any '$'. */
  function RemoveMnemonicsPlaceholder(s: string): (r: string)
    ensures Placeholder !in r
    ensures |r| <= |s|
  {
    if s == [] then []
    else if s[0] == Placeholder then RemoveMnemonicsPlaceholder(s[1..])
    else [s[0]] + RemoveMnemonicsPlaceholder(s[1..])
  }

  /** How many '$' a label holds. */
  function CountPlaceholders(s: string): nat {
    if s == [] then 0 else (if s[0] == Placeholder then 1 else 0) + CountPlaceholders(s[1..])
  }

  /** Removal works piece by piece: together with its effect on a single character this
      pins it down as "drop every '$', keep everything else in order". */
  lemma {:induction false} RemoveAppend(a: string, b: string)
    ensures RemoveMnemonicsPlaceholder(a + b)
         == RemoveMnemonicsPlaceholder(a) + RemoveMnemonicsPlaceholder(b)
  {
    if a != [] {
      assert (a + b)[1..] == a[1..] + b;
      RemoveAppend(a[1..], b);
    } else {
      assert a + b == b;
    }
  }

  lemma RemoveOne(c: char)
    ensures RemoveMnemonicsPlaceholder([c]) == if c == Placeholder then [] else [c]
  {
    assert [c][1..] == [];
  }

  /** Exactly the '$' characters disappear. */
  lemma {:induction false} RemoveLength(s: string)
    ensures |RemoveMnemonicsPlaceholder(s)| == |s| - CountPlaceholders(s)
  {
    if s != [] {
      RemoveLength(s[1..]);
    }
  }

  /** A label without '$' is shown as it is. */
  lemma {:induction false} RemoveIdentity(s: string)
    requires Placeholder !in s
    ensures RemoveMnemonicsPlaceholder(s) == s
  {
    if s != [] {
      assert Placeholder !in s[1..];
      RemoveIdentity(s[1..]);
    }
  }

  lemma RemoveIdempotent(s: string)
    ensures RemoveMnemonicsPlaceholder(RemoveMnemonicsPlaceholder(s))
         == RemoveMnemonicsPlaceholder(s)
  {
    RemoveIdentity(RemoveMnemonicsPlaceholder(s));
  }
}
