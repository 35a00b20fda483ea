/**
 * String conventions of the query layer: Python's `str.strip()` and
 * `str.upper()` as applied to SKUs and location names, and the
 * "Retail Hub" naming convention that classifies a location.
 */
module Text {

  /** The characters Python 3's `str.isspace()` accepts, which `strip()` removes. */
  predicate IsSpace(c: char) {
    var n := c as int;
    || 9 <= n <= 13 || 28 <= n <= 32
    || n == 0x85 || n == 0xA0 || n == 0x1680
    || 0x2000 <= n <= 0x200A
    || n == 0x2028 || n == 0x2029 || n == 0x202F || n == 0x205F || n == 0x3000
  }

  /** The number of whitespace characters at the start of `s`. */
  function LeadingSpaces(s: string): (n: nat)
    ensures n <= |s|
    ensures forall k | 0 <= k < n :: IsSpace(s[k])
    ensures n < |s| ==> !IsSpace(s[n])
  {
    if s == [] || !IsSpace(s[0]) then 0 else 1 + LeadingSpaces(s[1..])
  }

  /** The number of whitespace characters at the end of `s`. */
  function TrailingSpaces(s: string): (n: nat)
    ensures n <= |s|
    ensures forall k | |s| - n <= k < |s| :: IsSpace(s[k])
    ensures n < |s| ==> !IsSpace(s[|s| - 1 - n])
  {
    if s == [] || !IsSpace(s[|s| - 1]) then 0 else 1 + TrailingSpaces(s[..|s| - 1])
  }

  /**
   * `s.strip()`: the slice of `s` left after removing whitespace from both
   * ends; it neither starts nor ends with whitespace, and everything cut
   * off was whitespace.
   */
  function Strip(s: string): (r: string)
    ensures LeadingSpaces(s) + |r| <= |s|
    ensures r == s[LeadingSpaces(s)..LeadingSpaces(s) + |r|]
    ensures forall k | 0 <= k < LeadingSpaces(s) :: IsSpace(s[k])
    ensures forall k | LeadingSpaces(s) + |r| <= k < |s| :: IsSpace(s[k])
    ensures r == [] || (!IsSpace(r[0]) && !IsSpace(r[|r| - 1]))
  {
    var rest := s[LeadingSpaces(s)..];
    rest[..|rest| - TrailingSpaces(rest)]
  }

  /** Stripping a stripped string changes nothing. */
  lemma StripIdempotent(s: string)
    ensures Strip(Strip(s)) == Strip(s)
  {
    var r := Strip(s);
    assert LeadingSpaces(r) == 0;
    assert TrailingSpaces(r) == 0;
  }

  function UpperChar(c: char): char {
    if 'a' <= c <= 'z' then (c as int - 32) as char else c
  }

  /** `s.upper()` restricted to ASCII: each lower-case letter becomes its capital. */
  function Upper(s: string): (r: string)
    ensures |r| == |s|
    ensures forall k | 0 <= k < |s| :: r[k] == UpperChar(s[k])
  {
    if s == [] then [] else [UpperChar(s[0])] + Upper(s[1..])
  }

  /** After `Upper` no ASCII lower-case letter is left, and applying it again changes nothing. */
  lemma UpperIdempotent(s: string)
    ensures forall k | 0 <= k < |Upper(s)| :: !('a' <= Upper(s)[k] <= 'z')
    ensures Upper(Upper(s)) == Upper(s)
  {
  }

  /** The SKU normalisation of `move_product`: `sku.strip().upper()`. */
  function NormalizeSku(sku: string): (r: string)
    ensures |r| <= |sku|
    ensures forall k | 0 <= k < |r| :: !('a' <= r[k] <= 'z')
  {
    Upper(Strip(sku))
  }

  /** Upper-casing keeps every character's whitespace class, so it commutes with `Strip`. */
  lemma {:induction false} UpperKeepsStripped(s: string)
    requires Strip(s) == s
    ensures Strip(Upper(s)) == Upper(s)
  {
    var u := Upper(s);
    if s != [] {
      assert s[0] == Strip(s)[0] && s[|s| - 1] == Strip(s)[|Strip(s)| - 1];
      assert !IsSpace(s[0]) && !IsSpace(s[|s| - 1]);
      assert !IsSpace(u[0]) && !IsSpace(u[|u| - 1]);
      assert LeadingSpaces(u) == 0;
      assert TrailingSpaces(u) == 0;
    }
  }

  /**
   * Normalising an already normalised SKU changes nothing, so the callers
   * that normalise before calling `move_product` (which normalises again)
   * pass the same key.
   */
  lemma NormalizeSkuIdempotent(sku: string)
    ensures NormalizeSku(NormalizeSku(sku)) == NormalizeSku(sku)
  {
    var t := Strip(sku);
    StripIdempotent(sku);
    UpperKeepsStripped(t);
    UpperIdempotent(t);
  }

  /** The text every retail hub's name starts with. */
  const RetailHubPrefix: string := "Retail Hub"

  /**
   * A location is a retail hub when its name starts with "Retail Hub"
   * (`LIKE 'Retail Hub%'` in SQL, `startswith("Retail Hub")` in Python).
   */
  predicate IsRetailHub(location: string) {
    RetailHubPrefix <= location
  }
}
