/**
 * Small helpers of the web handlers (internal/handlers): the download name of
 * an attachment, the sender line, the size with its unit and the preview cut.
 * Names are byte strings, one char per byte.
 */
module Handlers {
  import opened Text
  import opened Paths
  import Search

  // ---------------------------------------------------------------------------
  // sanitizeFilename (attachments.go)

  /** The bytes the download name must not hold: controls, DEL and quotes. */
  predicate Forbidden(c: char) {
    (c as int) < 32 || (c as int) == 127 || c == '"' || c == '\''
  }

  predicate Clean(s: string) {
    forall k :: 0 <= k < |s| ==> !Forbidden(s[k])
  }

  /** `strings.Map` dropping the forbidden characters, keeping the others in order. */
  function Scrub(s: string): (r: string)
    ensures |r| <= |s| && Clean(r)
    ensures forall k :: 0 <= k < |r| ==> r[k] in s
    ensures Clean(s) ==> r == s
    decreases |s|
  {
    if s == [] then []
    else
      var rest := Scrub(s[1..]);
      assert forall k :: 0 <= k < |rest| ==> rest[k] in s;
      (if Forbidden(s[0]) then [] else [s[0]]) + rest
  }

  const MaxFilenameLen: nat := 255
  const FallbackName: string := "download.bin"

  lemma FallbackIsClean()
    ensures Clean(FallbackName) && '/' !in FallbackName && |FallbackName| <= MaxFilenameLen
  {
  }

  /** At most 255 bytes. */
  function Cut(s: string): (r: string)
    ensures |r| <= MaxFilenameLen && HasPrefix(s, r)
    ensures forall k :: 0 <= k < |r| ==> r[k] == s[k]
    ensures |s| <= MaxFilenameLen ==> r == s
  {
    if |s| > MaxFilenameLen then s[..MaxFilenameLen] else s
  }

  /** `sanitizeFilename` as written: base name, forbidden bytes dropped, cut to
      255 bytes, "download.bin" when nothing is left. */
  function SanitizeFilename(filename: string): (r: string)
    ensures r != [] && |r| <= MaxFilenameLen && Clean(r)
    ensures r == FallbackName || HasPrefix(Scrub(Base(filename)), r)
  {
    var cleaned := Cut(Scrub(Base(filename)));
    if cleaned == "" then FallbackIsClean(); FallbackName else cleaned
  }

  /** A short clean name without separators comes back unchanged. */
  lemma SanitizeKeepsName(name: string)
    requires name != [] && '/' !in name && Clean(name) && |name| <= MaxFilenameLen
    ensures SanitizeFilename(name) == name
  {
    BaseOfName(name);
  }

  /** Only the last element of the name counts. */
  lemma SanitizeDropsDirectory(dir: string, name: string)
    requires name != [] && '/' !in name
    ensures SanitizeFilename(dir + "/" + name) == SanitizeFilename(name)
  {
    BaseDropsDirectory(dir, name);
    BaseOfName(name);
  }

  /** A base name that is already clean and short comes back as it is. */
  lemma SanitizeCleanBase(filename: string)
    requires Clean(Base(filename)) && |Base(filename)| <= MaxFilenameLen
    ensures SanitizeFilename(filename) == Base(filename)
  {
  }

  /** As written, an empty name gives "." and a name of separators only gives
      "/": `Base` answers those, so the fallback is never reached for them. */
  lemma SanitizeKeepsBaseArtifacts(slashes: string)
    requires slashes != [] && forall k :: 0 <= k < |slashes| ==> slashes[k] == '/'
    ensures SanitizeFilename("") == "."
    ensures SanitizeFilename(slashes) == "/"
  {
    var dot, slash := ".", "/";
    assert Clean(dot) && Clean(slash);
    assert Base("") == dot;
    SanitizeCleanBase("");
    assert TrimTrailingSlashes(slashes) == [];
    assert Base(slashes) == slash;
    SanitizeCleanBase(slashes);
  }

  /** Characters of the cleaned base come from the base. */
  lemma CleanedFromBase(base: string)
    ensures forall k :: 0 <= k < |Cut(Scrub(base))| ==> Cut(Scrub(base))[k] in base
  {
  }

  /** The corrected helper: a result that names no file ("", "." or "/") falls
      back to "download.bin". */
  function SanitizeFilenameSafe(filename: string): (r: string)
    ensures r != [] && |r| <= MaxFilenameLen && Clean(r)
    ensures '/' !in r && r != "."
    ensures filename == "" ==> r == FallbackName
  {
    var base := Base(filename);
    var cleaned := Cut(Scrub(base));
    if cleaned == "" || cleaned == "." || cleaned == "/" then FallbackIsClean(); FallbackName
    else CleanedFromBase(base); cleaned
  }

  /** The correction changes nothing for any name whose result already names a file. */
  lemma SafeAgreesElsewhere(filename: string)
    requires SanitizeFilename(filename) != "." && SanitizeFilename(filename) != "/"
    ensures SanitizeFilenameSafe(filename) == SanitizeFilename(filename)
  {
  }

  // ---------------------------------------------------------------------------
  // formatSender and formatSize (email.go)

  /** "name <email>" when there is a name, the bare address otherwise; the
      address can be read back from between the angle brackets. */
  function FormatSender(name: string, email: string): (r: string)
    ensures name == "" ==> r == email
    ensures name != "" ==>
      |r| == |name| + |email| + 3 && HasPrefix(r, name + " <") &&
      r[|name| + 2..|r| - 1] == email && r[|r| - 1] == '>'
  {
    if name != "" then name + " <" + email + ">" else email
  }

  const Unit: int := 1024
  const UnitLetters: string := "KMGTPE"

  /** Go's int64 range. */
  predicate Int64(n: int) {
    -0x8000_0000_0000_0000 <= n < 0x8000_0000_0000_0000
  }

  function Pow1024(e: nat): (r: int)
    ensures r >= 1
  {
    if e == 0 then 1 else Unit * Pow1024(e - 1)
  }

  lemma {:induction false} Pow1024Grows(a: nat, b: nat)
    requires a <= b
    ensures Pow1024(a) <= Pow1024(b)
    decreases b
  {
    if a < b {
      Pow1024Grows(a, b - 1);
    }
  }

  /** A power of 1024 that fits in an int64 has an exponent of at most 6. */
  lemma ExpBound(e: nat)
    requires Pow1024(e + 1) < 0x8000_0000_0000_0000
    ensures e <= 5
  {
    if e > 5 {
      Pow1024Grows(7, e + 1);
    }
  }

  /** One round of the loop: dividing `n` and multiplying `div` keeps `bytes`
      between `n * div` and `(n + 1) * div`. */
  lemma ScaleStep(n: int, div: int, bytes: int)
    requires n >= Unit && div > 0 && n * div <= bytes < (n + 1) * div
    ensures (n / Unit) * (div * Unit) <= bytes < (n / Unit + 1) * (div * Unit)
  {
    var q, r := n / Unit, n % Unit;
    assert n == Unit * q + r && 0 <= r < Unit;
    MulAssoc(q, div);
    MulAssoc(q + 1, div);
    MulLe(Unit * q, n, div);
    MulLe(n + 1, Unit * q + Unit, div);
    assert (q + 1) * Unit == Unit * q + Unit;
  }

  lemma MulAssoc(q: int, div: int)
    ensures q * (div * Unit) == (q * Unit) * div
  {
  }

  lemma MulLe(a: int, b: int, c: int)
    requires a <= b && c >= 0
    ensures a * c <= b * c
  {
    assert b * c - a * c == (b - a) * c;
  }

  /** The unit loop of `formatSize`: `div` is the largest power of 1024 not
      above `bytes`, and `exp` names its letter. */
  method ScaleOf(bytes: int) returns (div: int, exp: nat)
    requires Int64(bytes) && bytes >= Unit
    ensures div == Pow1024(exp + 1)
    ensures div <= bytes < Unit * div
    ensures exp <= 5 && div < 0x8000_0000_0000_0000
  {
    div, exp := Unit, 0;
    var n := bytes / Unit;
    while n >= Unit
      invariant div == Pow1024(exp + 1)
      invariant n >= 1 && n * div <= bytes < (n + 1) * div
      decreases n
    {
      ScaleStep(n, div, bytes);
      div := div * Unit;
      exp := exp + 1;
      n := n / Unit;
    }
    MulLe(1, n, div);
    MulLe(n + 1, Unit, div);
    ExpBound(exp);
  }

  /** What `formatSize` prints: the exact count below 1024 bytes, otherwise a
      scale and its unit letter (the one-decimal quotient is not modelled). */
  datatype SizeText = Exact(text: string) | Scaled(div: int, exp: nat, unit: char)

  method FormatSize(bytes: int) returns (r: SizeText)
    requires Int64(bytes)
    ensures bytes < Unit ==> r == Exact(DecimalString(bytes) + " B")
    ensures bytes >= Unit ==>
      r.Scaled? && r.exp < |UnitLetters| && r.unit == UnitLetters[r.exp] &&
      r.div == Pow1024(r.exp + 1) && r.div <= bytes < Unit * r.div
  {
    if bytes < Unit {
      return Exact(DecimalString(bytes) + " B");
    }
    var div, exp := ScaleOf(bytes);
    r := Scaled(div, exp, UnitLetters[exp]);
  }

  /** The scale is determined by the size: two scales that both bracket it are equal. */
  lemma ScaleUnique(bytes: int, a: nat, b: nat)
    requires Pow1024(a + 1) <= bytes < Unit * Pow1024(a + 1)
    requires Pow1024(b + 1) <= bytes < Unit * Pow1024(b + 1)
    ensures a == b
  {
    if a < b {
      Pow1024Grows(a + 2, b + 1);
    } else if b < a {
      Pow1024Grows(b + 2, a + 1);
    }
  }

  // ---------------------------------------------------------------------------
  // truncate (index.go)

  /** `truncate`: the text itself when short enough, else its first `maxLen`
      bytes and "...". Go panics on a negative `maxLen`. */
  function Truncate(s: string, maxLen: int): (r: string)
    requires maxLen >= 0
    ensures |s| <= maxLen ==> r == s
    ensures |s| > maxLen ==> |r| == maxLen + 3 && HasPrefix(r, s[..maxLen]) && r[maxLen..] == "..."
    ensures HasPrefix(r, s[..if |s| < maxLen then |s| else maxLen])
  {
    if |s| <= maxLen then s else s[..maxLen] + "..."
  }

  /** The handlers' `truncate` and the store's `truncateText` agree on every input. */
  lemma TruncateAgrees(s: string, maxLen: int)
    requires maxLen >= 0
    ensures Truncate(s, maxLen) == Search.TruncateText(s, maxLen)
  {
  }
}
