/**
 The part of the `http` crate's `HeaderMap` that the header functions use:
 names are normalised to lower case, `insert` overwrites and `remove`
 deletes. A map holds one value per name here; the crate's multi-value
 storage is not modelled.
 */
module Http {

  /** The bytes `HeaderValue::from_str` accepts: visible characters, space and
      tab, that is every byte from 32 up except DEL (127), and tab. Characters
      above 127 are encoded by UTF-8 as bytes above 127 only, all accepted. */
  predicate ValidHeaderChar(c: char)
  {
    (c >= ' ' && c != '\U{7F}') || c == '\t'
  }

  predicate ValidHeaderValue(s: string)
  {
    forall i :: 0 <= i < |s| ==> ValidHeaderChar(s[i])
  }

  /** A string that `"...".parse::<HeaderValue>()` turns into a value: the
      `unwrap()` of the source succeeds exactly on these. */
  type HeaderValue = s: string | ValidHeaderValue(s) witness ""

  function LowerChar(c: char): (l: char)
    ensures 'A' <= c <= 'Z' ==> l as int == c as int + 32
    ensures !('A' <= c <= 'Z') ==> l == c
  {
    if 'A' <= c <= 'Z' then (c as int + 32) as char else c
  }

  /** ASCII lower-casing, as `HeaderName` normalises a name. */
  function Lower(s: string): (l: string)
    ensures |l| == |s|
    ensures forall i :: 0 <= i < |s| ==> l[i] == LowerChar(s[i])
  {
    seq(|s|, i requires 0 <= i < |s| => LowerChar(s[i]))
  }

  lemma LowerConcat(a: string, b: string)
    ensures Lower(a + b) == Lower(a) + Lower(b)
  {
    var l, r := Lower(a + b), Lower(a) + Lower(b);
    forall i | 0 <= i < |l| ensures l[i] == r[i] {
      if i < |a| {
        assert (a + b)[i] == a[i];
      } else {
        assert (a + b)[i] == b[i - |a|];
      }
    }
  }

  class HeaderMap {
    /** Values by lower-cased header name. */
    var entries: map<string, HeaderValue>

    constructor ()
      ensures entries == map[]
    {
      entries := map[];
    }

    method Insert(name: string, value: HeaderValue)
      modifies this
      ensures entries == old(entries)[Lower(name) := value]
    {
      entries := entries[Lower(name) := value];
    }

    method Remove(name: string)
      modifies this
      ensures entries == old(entries) - {Lower(name)}
    {
      entries := entries - {Lower(name)};
    }
  }
}
