/** Column-name normalisation: `str.upper()` restricted to ASCII letters. */
module ColumnNames {

  predicate IsLower(c: char) {
    'a' <= c <= 'z'
  }

  /** The upper-case form of one character; characters other than `a`..`z` are kept. */
  function UpperChar(c: char): char {
    if IsLower(c) then (c as int - 32) as char else c
  }

  /** The upper-case form of a name, character by character. */
  function Upper(s: string): (u: string)
    ensures |u| == |s|
    ensures forall i :: 0 <= i < |s| ==> u[i] == UpperChar(s[i])
  {
    seq(|s|, i requires 0 <= i < |s| => UpperChar(s[i]))
  }

  /** The list comprehension `[col.upper() for col in df.columns]`. */
  function UpperAll(names: seq<string>): (r: seq<string>)
    ensures |r| == |names|
    ensures forall i :: 0 <= i < |names| ==> r[i] == Upper(names[i])
  {
    seq(|names|, i requires 0 <= i < |names| => Upper(names[i]))
  }

  /** No lower-case letter survives upper-casing. */
  lemma UpperHasNoLower(s: string)
    ensures forall i :: 0 <= i < |Upper(s)| ==> !IsLower(Upper(s)[i])
  {
  }

  /** A name without lower-case letters is its own upper-case form. */
  lemma UpperFixesUpperCase(s: string)
    requires forall i :: 0 <= i < |s| ==> !IsLower(s[i])
    ensures Upper(s) == s
  {
  }

  /** Upper-casing twice is upper-casing once. */
  lemma UpperIdempotent(s: string)
    ensures Upper(Upper(s)) == Upper(s)
  {
    UpperHasNoLower(s);
    UpperFixesUpperCase(Upper(s));
  }

  /** Two names that differ only in the case of their letters normalise to the same name. */
  lemma UpperIgnoresCase(s: string, t: string)
    requires |s| == |t|
    requires forall i :: 0 <= i < |s| ==> UpperChar(s[i]) == UpperChar(t[i])
    ensures Upper(s) == Upper(t)
  {
  }

  /** Normalising the column list keeps its length and order and is idempotent. */
  lemma UpperAllIdempotent(names: seq<string>)
    ensures UpperAll(UpperAll(names)) == UpperAll(names)
  {
    forall i | 0 <= i < |names|
      ensures UpperAll(UpperAll(names))[i] == UpperAll(names)[i]
    {
      UpperIdempotent(names[i]);
    }
  }
}
