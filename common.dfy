/** Shared vocabulary of the model: optional values, results, the failures the
    backend raises, and the handful of string operations (Python `str` methods and
    their JavaScript counterparts) that the rest of the model is written in. */
module Common {

  datatype Option<+T> = None | Some(value: T)

  /** A success value or a failure, as Python's raise/return pair. */
  datatype Result<+T, +E> = Ok(value: T) | Err(error: E)

  /** What the backend raises: an `HTTPException(status_code, detail)` or some
      other exception carrying a message (`ValueError`, a storage error, ...). */
  datatype Failure = HttpError(status: int, detail: string) | Raised(message: string)

  type Byte = b: int | 0 <= b < 256

  const SecondsPerDay: int := 86400

  // ---------------------------------------------------------------- characters

  predicate IsAsciiLower(c: char) { 'a' <= c <= 'z' }
  predicate IsAsciiUpper(c: char) { 'A' <= c <= 'Z' }
  predicate IsDigit(c: char) { '0' <= c <= '9' }

  /** ASCII whitespace: space, tab, line feed, carriage return, vertical tab and
      form feed. Both `str.strip()` and `String.prototype.trim()` remove these.
      The other characters each of them removes are not modelled: for Python
      the separators \x1c-\x1f, \x85 and the Unicode spaces, for JavaScript
      its own Unicode set. */
  predicate IsSpace(c: char) {
    c == ' ' || c == '\t' || c == '\n' || c == '\r' || c == '\U{000B}' || c == '\U{000C}'
  }

  function LowerChar(c: char): (r: char)
    ensures IsAsciiUpper(c) ==> IsAsciiLower(r) && r as int == c as int + 32
    ensures !IsAsciiUpper(c) ==> r == c
  {
    if IsAsciiUpper(c) then (c as int + 32) as char else c
  }

  /** `s.lower()` / `s.toLowerCase()` over ASCII letters. */
  function Lower(s: string): (r: string)
    ensures |r| == |s|
    ensures forall i :: 0 <= i < |s| ==> r[i] == LowerChar(s[i])
  {
    seq(|s|, i requires 0 <= i < |s| => LowerChar(s[i]))
  }

  lemma LowerIdempotent(s: string)
    ensures Lower(Lower(s)) == Lower(s)
  {
  }

  // ---------------------------------------------------------------- prefixes

  predicate StartsWith(s: string, p: string) { |p| <= |s| && s[..|p|] == p }
  predicate EndsWith(s: string, p: string) { |p| <= |s| && s[|s| - |p|..] == p }

  // ---------------------------------------------------------------- stripping

  /** Drops the longest prefix whose characters all satisfy `drop`. */
  function LStrip(s: string, drop: char -> bool): (r: string)
    ensures |r| <= |s| && r == s[|s| - |r|..]
    ensures r == [] || !drop(r[0])
    ensures forall i :: 0 <= i < |s| - |r| ==> drop(s[i])
  {
    if s != [] && drop(s[0]) then LStrip(s[1..], drop) else s
  }

  /** Drops the longest suffix whose characters all satisfy `drop`. */
  function RStrip(s: string, drop: char -> bool): (r: string)
    ensures |r| <= |s| && r == s[..|r|]
    ensures r == [] || !drop(r[|r| - 1])
    ensures forall i :: |r| <= i < |s| ==> drop(s[i])
  {
    if s != [] && drop(s[|s| - 1]) then RStrip(s[..|s| - 1], drop) else s
  }

  predicate AllSpace(s: string)
  {
    forall i :: 0 <= i < |s| ==> IsSpace(s[i])
  }

  /** The length of the leading whitespace run. */
  function LeadingSpace(s: string): (k: nat)
    ensures k <= |s| && AllSpace(s[..k])
    ensures k < |s| ==> !IsSpace(s[k])
  {
    |s| - |LStrip(s, IsSpace)|
  }

  /** `s.strip()` / `s.trim()`: the input without its leading and trailing
      whitespace runs. */
  function Strip(s: string): (r: string)
    ensures r == [] || (!IsSpace(r[0]) && !IsSpace(r[|r| - 1]))
    ensures |r| <= |s| - LeadingSpace(s)
    ensures r == s[LeadingSpace(s)..LeadingSpace(s) + |r|]
    ensures AllSpace(s[LeadingSpace(s) + |r|..])
  {
    var left := LStrip(s, IsSpace);
    var r := RStrip(left, IsSpace);
    var lo := LeadingSpace(s);
    assert r == left[..|r|] && left == s[lo..];
    var tail := s[lo + |r|..];
    assert forall i :: 0 <= i < |tail| ==> tail[i] == left[|r| + i];
    r
  }

  lemma StripIdempotent(s: string)
    ensures Strip(Strip(s)) == Strip(s)
  {
    var r := Strip(s);
    assert LStrip(r, IsSpace) == r;
  }

  lemma StripOfUnspaced(s: string)
    requires forall i :: 0 <= i < |s| ==> !IsSpace(s[i])
    ensures Strip(s) == s
  {
  }

  // ---------------------------------------------------------------- splitting

  function IndexOf(s: string, c: char): (i: nat)
    requires c in s
    ensures i < |s| && s[i] == c && c !in s[..i]
  {
    if s[0] == c then 0 else 1 + IndexOf(s[1..], c)
  }

  /** `s.split(sep)` for a one-character separator (Python and JavaScript agree). */
  function Split(s: string, sep: char): (r: seq<string>)
    ensures |r| >= 1
    ensures forall k :: 0 <= k < |r| ==> sep !in r[k]
    decreases |s|
  {
    if sep !in s then [s]
    else
      var i := IndexOf(s, sep);
      [s[..i]] + Split(s[i + 1..], sep)
  }

  /** `sep.join(parts)`, the inverse of `Split`. */
  function Join(parts: seq<string>, sep: char): string
  {
    if |parts| <= 1 then (if parts == [] then "" else parts[0])
    else parts[0] + [sep] + Join(parts[1..], sep)
  }

  lemma {:induction false} JoinSplit(s: string, sep: char)
    ensures Join(Split(s, sep), sep) == s
    decreases |s|
  {
    if sep in s {
      var i := IndexOf(s, sep);
      var rest := Split(s[i + 1..], sep);
      JoinSplit(s[i + 1..], sep);
      assert Split(s, sep) == [s[..i]] + rest;
      assert s == s[..i] + [sep] + s[i + 1..];
    }
  }

  /** Splitting a separator-free piece off the front. */
  lemma SplitConcat(a: string, sep: char, b: string)
    requires sep !in a
    ensures Split(a + [sep] + b, sep) == [a] + Split(b, sep)
  {
    var s := a + [sep] + b;
    var i := IndexOf(s, sep);
    assert forall t :: 0 <= t < |a| ==> s[t] == a[t];
    assert forall t :: 0 <= t < i ==> s[..i][t] == s[t];
    assert s[|a|] == sep;
    assert i == |a|;
    assert s[..i] == a;
    assert s[i + 1..] == b;
  }

  /** `Split` undoes `Join` when no part holds the separator. */
  lemma {:induction false} SplitJoin(parts: seq<string>, sep: char)
    requires |parts| >= 1
    requires forall k :: 0 <= k < |parts| ==> sep !in parts[k]
    ensures Split(Join(parts, sep), sep) == parts
    decreases |parts|
  {
    if |parts| >= 2 {
      SplitJoin(parts[1..], sep);
      SplitConcat(parts[0], sep, Join(parts[1..], sep));
      assert parts == [parts[0]] + parts[1..];
    }
  }

  /** The last part closes the joined string, right after a separator. */
  lemma {:induction false} JoinEndsWithLast(parts: seq<string>, sep: char)
    requires |parts| >= 2
    ensures var j := Join(parts, sep); var last := parts[|parts| - 1];
      |last| < |j| && EndsWith(j, last) && j[|j| - |last| - 1] == sep
    decreases |parts|
  {
    var j := Join(parts, sep);
    var last := parts[|parts| - 1];
    if |parts| > 2 {
      JoinEndsWithLast(parts[1..], sep);
      var tail := Join(parts[1..], sep);
      assert j == (parts[0] + [sep]) + tail;
      assert j[|j| - |tail|..] == tail;
      assert forall t :: 0 <= t < |tail| ==> j[|j| - |tail| + t] == tail[t];
    } else {
      assert Join(parts[1..], sep) == last;
      assert j == parts[0] + [sep] + last;
    }
  }

  /** Strip every piece and keep the non-blank ones, in order (Python
      `[p.strip() for p in parts if p.strip()]`, JavaScript
      `parts.map((t) => t.trim()).filter(Boolean)`). */
  function KeepNonBlank(parts: seq<string>): (r: seq<string>)
    ensures |r| <= |parts|
    ensures forall i :: 0 <= i < |r| ==> r[i] != [] && Strip(r[i]) == r[i]
  {
    if parts == [] then []
    else
      var rest := KeepNonBlank(parts[1..]);
      var head := Strip(parts[0]);
      StripIdempotent(parts[0]);
      if head != [] then [head] + rest else rest
  }

  /** Every kept entry is a stripped piece of the input. */
  lemma {:induction false} KeepNonBlankSound(parts: seq<string>)
    ensures forall e :: e in KeepNonBlank(parts) ==> exists p :: p in parts && e == Strip(p)
  {
    if parts != [] {
      KeepNonBlankSound(parts[1..]);
      forall e | e in KeepNonBlank(parts)
        ensures exists p :: p in parts && e == Strip(p)
      {
        if e == Strip(parts[0]) {
          assert parts[0] in parts;
        } else {
          assert e in KeepNonBlank(parts[1..]);
          var p :| p in parts[1..] && e == Strip(p);
          assert p in parts;
        }
      }
    }
  }

  lemma AppendAssoc<T>(x: seq<T>, y: seq<T>, z: seq<T>)
    ensures x + (y + z) == (x + y) + z
  {
  }

  /** One step of `KeepNonBlank`: the first piece, kept when not blank, then the rest. */
  lemma KeepNonBlankUnfold(parts: seq<string>)
    requires parts != []
    ensures KeepNonBlank(parts) == (if Strip(parts[0]) != [] then [Strip(parts[0])] else []) + KeepNonBlank(parts[1..])
  {
  }

  /** Filtering a concatenation filters each part and keeps them in order. */
  lemma {:induction false} KeepNonBlankAppend(a: seq<string>, b: seq<string>)
    ensures KeepNonBlank(a + b) == KeepNonBlank(a) + KeepNonBlank(b)
    decreases |a|
  {
    if a == [] {
      assert a + b == b;
    } else {
      var ab := a + b;
      assert ab[0] == a[0] && ab[1..] == a[1..] + b;
      KeepNonBlankAppend(a[1..], b);
      KeepNonBlankUnfold(ab);
      KeepNonBlankUnfold(a);
      var head := if Strip(a[0]) != [] then [Strip(a[0])] else [];
      AppendAssoc(head, KeepNonBlank(a[1..]), KeepNonBlank(b));
    }
  }

  /** One piece is kept, stripped, exactly when it is not blank. */
  lemma KeepNonBlankSingle(p: string)
    ensures KeepNonBlank([p]) == (if Strip(p) != [] then [Strip(p)] else [])
  {
    assert [p][1..] == [];
  }

  /** Every piece that is not blank is kept, stripped. */
  lemma {:induction false} KeepNonBlankComplete(parts: seq<string>)
    ensures forall p :: p in parts && Strip(p) != [] ==> Strip(p) in KeepNonBlank(parts)
  {
    if parts != [] {
      KeepNonBlankComplete(parts[1..]);
      forall p | p in parts && Strip(p) != []
        ensures Strip(p) in KeepNonBlank(parts)
      {
        if p != parts[0] {
          assert p in parts[1..];
        }
      }
    }
  }

  /** The first piece of `s.split(sep)`: the text before the first separator. */
  function FirstPiece(s: string, sep: char): (r: string)
    ensures StartsWith(s, r) && sep !in r
    ensures |r| < |s| ==> s[|r|] == sep
  {
    if sep in s then s[..IndexOf(s, sep)] else s
  }

  lemma FirstPieceIsSplitHead(s: string, sep: char)
    ensures FirstPiece(s, sep) == Split(s, sep)[0]
  {
  }

  function LastIndexOf(s: string, c: char): (r: int)
    ensures -1 <= r < |s|
    ensures r >= 0 ==> s[r] == c
    ensures forall i :: r < i < |s| ==> s[i] != c
  {
    if s == [] then -1
    else if s[|s| - 1] == c then |s| - 1
    else LastIndexOf(s[..|s| - 1], c)
  }

  /** `os.path.basename` on POSIX: the text after the last '/'. */
  function Basename(p: string): (r: string)
    ensures '/' !in r
    ensures EndsWith(p, r)
    ensures |r| < |p| ==> p[|p| - |r| - 1] == '/'
  {
    p[LastIndexOf(p, '/') + 1..]
  }

  // ---------------------------------------------------------------- numbers

  function DigitChar(d: nat): (c: char)
    requires d < 10
    ensures IsDigit(c) && DigitValue(c) == d
  {
    ('0' as int + d) as char
  }

  /** The value of one decimal digit. */
  function DigitValue(c: char): nat
    requires IsDigit(c)
  {
    c as int - '0' as int
  }

  /** The number a string of decimal digits denotes, most significant digit first. */
  function DecimalValue(s: string): nat
    requires forall i :: 0 <= i < |s| ==> IsDigit(s[i])
  {
    if s == [] then 0 else DecimalValue(s[..|s| - 1]) * 10 + DigitValue(s[|s| - 1])
  }

  /** Decimal rendering of a natural number (Python `str(n)`, JavaScript `${n}`):
    * digits only, no leading zero except for zero itself, denoting `n`. */
  function NatToString(n: nat): (r: string)
    ensures |r| >= 1
    ensures forall i :: 0 <= i < |r| ==> IsDigit(r[i])
    ensures r[0] != '0' || r == "0"
    ensures DecimalValue(r) == n
  {
    if n < 10 then [DigitChar(n)] else NatToString(n / 10) + [DigitChar(n % 10)]
  }
}
