/**
 Form fields and whitespace trimming, as the routes read them: a field is
 looked up with an empty-string default, and most fields are passed through
 Python's `str.strip()` before use.
 */
module Text {

  /** A submitted HTML form: field name to raw value. */
  type Form = map<string, string>

  /** `request.form.get(name, "")`: the raw value, or "" when the field is missing. */
  function Field(form: Form, name: string): (r: string)
    ensures name in form ==> r == form[name]
    ensures name !in form ==> r == ""
  {
    if name in form then form[name] else ""
  }

  /** The characters Python's `str.isspace()` accepts, which are exactly the
      ones `str.strip()` with no argument removes. */
  predicate IsSpace(c: char) {
    || '\t' <= c <= '\r'
    || '\U{1C}' <= c <= ' '
    || c == '\U{85}'
    || c == '\U{A0}'
    || c == '\U{1680}'
    || '\U{2000}' <= c <= '\U{200A}'
    || c == '\U{2028}'
    || c == '\U{2029}'
    || c == '\U{202F}'
    || c == '\U{205F}'
    || c == '\U{3000}'
  }

  predicate AllSpace(s: string) {
    forall i :: 0 <= i < |s| ==> IsSpace(s[i])
  }

  /** How many whitespace characters `s` starts with. */
  function LeadingSpace(s: string): (n: nat)
    ensures n <= |s|
    ensures forall k :: 0 <= k < n ==> IsSpace(s[k])
    ensures n < |s| ==> !IsSpace(s[n])
  {
    if s != [] && IsSpace(s[0]) then 1 + LeadingSpace(s[1..]) else 0
  }

  /** How many whitespace characters `s` ends with. */
  function TrailingSpace(s: string): (n: nat)
    ensures n <= |s|
    ensures forall k :: |s| - n <= k < |s| ==> IsSpace(s[k])
    ensures n < |s| ==> !IsSpace(s[|s| - n - 1])
  {
    if s != [] && IsSpace(s[|s| - 1]) then 1 + TrailingSpace(s[..|s| - 1]) else 0
  }

  /** Python's `s.strip()`: the stretch of `s` left once its leading and its
      trailing whitespace are cut off. Only whitespace strips to nothing,
      which is the test every route applies as `if not value`. */
  function Trim(s: string): (r: string)
    ensures |r| <= |s|
    ensures r == [] || (!IsSpace(r[0]) && !IsSpace(r[|r| - 1]))
    ensures r == [] <==> AllSpace(s)
  {
    var i := LeadingSpace(s);
    var a := s[i..];
    var r := a[..|a| - TrailingSpace(a)];
    TrimBlank(s, i, r);
    r
  }

  /** Cutting `s` at `i` and keeping a prefix `r` of the rest leaves nothing
      exactly when `s` was all whitespace. */
  lemma TrimBlank(s: string, i: nat, r: string)
    requires i == LeadingSpace(s)
    requires r == s[i..][..|s[i..]| - TrailingSpace(s[i..])]
    ensures r == [] <==> AllSpace(s)
  {
    var a := s[i..];
    var j := |r|;
    if r == [] {
      assert s == s[..i] + s[i + j..];
      assert s[i + j..] == a[j..];
      AllSpaceConcat(s[..i], s[i + j..]);
    } else {
      assert s[i] == r[0];
    }
  }

  /** What `Trim` keeps is one stretch of `s`, with only whitespace before
      it and only whitespace after it. */
  lemma TrimSlice(s: string)
    ensures LeadingSpace(s) + |Trim(s)| <= |s|
    ensures s[LeadingSpace(s)..LeadingSpace(s) + |Trim(s)|] == Trim(s)
    ensures AllSpace(s[..LeadingSpace(s)])
    ensures AllSpace(s[LeadingSpace(s) + |Trim(s)|..])
  {
    var i := LeadingSpace(s);
    var a := s[i..];
    var r := Trim(s);
    assert s[i + |r|..] == a[|r|..];
  }

  /** A concatenation is all whitespace exactly when both parts are. */
  lemma AllSpaceConcat(a: string, b: string)
    ensures AllSpace(a + b) <==> AllSpace(a) && AllSpace(b)
  {
    if AllSpace(a + b) {
      forall k | 0 <= k < |a|
        ensures IsSpace(a[k])
      {
        assert a[k] == (a + b)[k];
      }
      forall k | 0 <= k < |b|
        ensures IsSpace(b[k])
      {
        assert b[k] == (a + b)[|a| + k];
      }
    }
    if AllSpace(a) && AllSpace(b) {
      forall k | 0 <= k < |a + b|
        ensures IsSpace((a + b)[k])
      {
        if k < |a| {
          assert (a + b)[k] == a[k];
        } else {
          assert (a + b)[k] == b[k - |a|];
        }
      }
    }
  }
}
