/** The display helpers of `frontend/lib/format.ts`: byte sizes with a unit,
    and short UTC dates. Numbers are exact reals here; `toFixed`, `Date`
    parsing and `Intl.DateTimeFormat` are passed in as functions. */
module Format {
  import opened Common

  /** A JavaScript number: finite, or one of NaN and the infinities. */
  datatype JsNumber = Finite(x: real) | NonFinite

  const Placeholder: string := "—"
  const Units: seq<string> := ["B", "KB", "MB", "GB", "TB"]

  function Pow1024(k: nat): (p: real)
    ensures p >= 1.0
  {
    if k == 0 then 1.0 else 1024.0 * Pow1024(k - 1)
  }

  /** The unit a size is shown in, read off the thresholds: the largest k with
      1024^k <= bytes, capped at TB. */
  function UnitFor(bytes: real): (k: nat)
    ensures k < |Units|
  {
    if bytes >= 1099511627776.0 then 4
    else if bytes >= 1073741824.0 then 3
    else if bytes >= 1048576.0 then 2
    else if bytes >= 1024.0 then 1
    else 0
  }

  lemma Pow1024Values()
    ensures Pow1024(1) == 1024.0 && Pow1024(2) == 1048576.0 && Pow1024(3) == 1073741824.0
    ensures Pow1024(4) == 1099511627776.0 && Pow1024(5) == 1125899906842624.0
  {
  }

  /** The unit brackets the size: 1024^k <= bytes < 1024^(k+1), except that
      TB has no upper bound and B no lower one. */
  lemma UnitForBrackets(bytes: real)
    requires bytes >= 0.0
    ensures var k := UnitFor(bytes);
      (k > 0 ==> bytes >= Pow1024(k)) && (k < |Units| - 1 ==> bytes < Pow1024(k + 1))
  {
    Pow1024Values();
  }

  /** Only one unit brackets a size. */
  lemma BracketIsUnitFor(bytes: real, k: nat)
    requires k < |Units|
    requires k > 0 ==> bytes >= Pow1024(k)
    requires k < |Units| - 1 ==> bytes < Pow1024(k + 1)
    ensures k == UnitFor(bytes)
  {
    Pow1024Values();
  }

  lemma DivideStep(bytes: real, p: real)
    requires p > 0.0
    ensures bytes / p >= 1024.0 <==> bytes >= 1024.0 * p
    ensures (bytes / p) / 1024.0 == bytes / (1024.0 * p)
  {
  }

  /** The `while (value >= 1024 && unitIndex < units.length - 1)` loop. */
  method SelectUnit(bytes: real) returns (value: real, unitIndex: nat)
    requires bytes >= 0.0
    ensures unitIndex == UnitFor(bytes)
    ensures value == bytes / Pow1024(unitIndex)
  {
    value := bytes;
    unitIndex := 0;
    while value >= 1024.0 && unitIndex < |Units| - 1
      invariant unitIndex < |Units|
      invariant value == bytes / Pow1024(unitIndex)
      invariant unitIndex > 0 ==> bytes >= Pow1024(unitIndex)
    {
      DivideStep(bytes, Pow1024(unitIndex));
      value := value / 1024.0;
      unitIndex := unitIndex + 1;
    }
    DivideStep(bytes, Pow1024(unitIndex));
    BracketIsUnitFor(bytes, unitIndex);
  }

  /** Decimals shown: none for B and KB, one from MB up. */
  function Precision(unitIndex: nat): nat
  {
    if unitIndex == 0 then 0 else if unitIndex == 1 then 0 else 1
  }

  /** `formatBytes`; `toFixed(v, d)` stands for `v.toFixed(d)`. */
  method FormatBytes(bytes: JsNumber, toFixed: (real, nat) -> string) returns (s: string)
    ensures bytes.NonFinite? || bytes.x < 0.0 ==> s == Placeholder
    ensures bytes.Finite? && bytes.x >= 0.0 ==>
              var k := UnitFor(bytes.x);
              s == toFixed(bytes.x / Pow1024(k), if k <= 1 then 0 else 1) + " " + Units[k]
  {
    if bytes.NonFinite? || bytes.x < 0.0 {
      return Placeholder;
    }
    var value, unitIndex := SelectUnit(bytes.x);
    var precision := Precision(unitIndex);
    s := toFixed(value, precision) + " " + Units[unitIndex];
  }

  // ---------------------------------------------------------------- dates

  /** The `iso` argument: `null`, `undefined` or a string. */
  datatype DateInput = Null | Undefined | Text(s: string)

  /** `[+-]\d{2}:\d{2}$`. */
  predicate EndsWithOffset(s: string)
  {
    |s| >= 6 && (s[|s| - 6] == '+' || s[|s| - 6] == '-')
    && IsDigit(s[|s| - 5]) && IsDigit(s[|s| - 4]) && s[|s| - 3] == ':'
    && IsDigit(s[|s| - 2]) && IsDigit(s[|s| - 1])
  }

  /** `/[zZ]|[+-]\d{2}:\d{2}$/.test(s)`: the first alternative is not
      anchored, so a 'z' or 'Z' anywhere counts. */
  predicate HasTimezone(s: string)
  {
    'z' in s || 'Z' in s || EndsWithOffset(s)
  }

  /** A timestamp without a zone is read as UTC. */
  function Normalize(s: string): (r: string)
    ensures HasTimezone(r)
    ensures HasTimezone(s) ==> r == s
    ensures !HasTimezone(s) ==> r == s + "Z"
  {
    if HasTimezone(s) then s
    else
      assert (s + "Z")[|s|] == 'Z';
      s + "Z"
  }

  /** Normalising twice is normalising once. */
  lemma NormalizeIdempotent(s: string)
    ensures Normalize(Normalize(s)) == Normalize(s)
  {
  }

  /** `formatShortDate`; `parse` is `new Date(...)` (None for an invalid date)
      and `render` the fixed en-US/UTC formatter. */
  function FormatShortDate(iso: DateInput, parse: string -> Option<int>, render: int -> string): (r: string)
    ensures iso.Null? || iso.Undefined? || iso == Text("") ==> r == Placeholder
    ensures iso.Text? && iso.s != "" && parse(Normalize(iso.s)).None? ==> r == Placeholder
    ensures iso.Text? && iso.s != "" && parse(Normalize(iso.s)).Some? ==> r == render(parse(Normalize(iso.s)).value)
  {
    if !iso.Text? || iso.s == "" then Placeholder
    else
      var normalized := if HasTimezone(iso.s) then iso.s else iso.s + "Z";
      match parse(normalized)
      case None => Placeholder
      case Some(t) => render(t)
  }
}
