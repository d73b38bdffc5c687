/**
 * The string rules the document store relies on: Swift's `Int(String)`
 * initializer, the decimal rendering of an `Int` in string interpolation,
 * and Foundation's split of a file name into its name and path extension.
 */
module Names {
  import opened Wrappers

  /** Bounds of Swift's 64-bit `Int`. */
  const IntMax: int := 0x7FFF_FFFF_FFFF_FFFF
  const IntMin: int := -0x8000_0000_0000_0000

  predicate IsDigit(c: char)
  {
    '0' <= c <= '9'
  }

  predicate AllDigits(s: string)
  {
    forall i :: 0 <= i < |s| ==> IsDigit(s[i])
  }

  function DigitValue(c: char): nat
    requires IsDigit(c)
  {
    c as int - '0' as int
  }

  function DigitChar(d: nat): (c: char)
    requires d < 10
    ensures IsDigit(c) && DigitValue(c) == d
  {
    ('0' as int + d) as char
  }

  /** The value of a run of decimal digits, most significant digit first. */
  function DigitsValue(s: string): nat
    requires AllDigits(s)
  {
    if s == [] then 0 else 10 * DigitsValue(s[..|s| - 1]) + DigitValue(s[|s| - 1])
  }

  /**
   * Decimal rendering of a non-negative integer, as `"\(n)"` prints it: at
   * least one digit, no sign, no leading zero, and reading the digits back
   * gives `n` again.
   */
  function Decimal(n: nat): (s: string)
    ensures |s| > 0 && AllDigits(s)
    ensures s[0] != '0' || n == 0
    ensures DigitsValue(s) == n
  {
    if n < 10 then [DigitChar(n)]
    else
      var front := Decimal(n / 10);
      var s := front + [DigitChar(n % 10)];
      assert s[..|s| - 1] == front;
      s
  }

  /** A non-empty run of decimal digits, or nothing. */
  function ParseDigits(s: string): (r: Option<nat>)
    ensures r.Some? <==> |s| > 0 && AllDigits(s)
  {
    if |s| > 0 && AllDigits(s) then Some(DigitsValue(s)) else None
  }

  /**
   * Swift's `Int(String)`: an optional `+` or `-` followed by one or more
   * ASCII decimal digits, with no other character; nil when the text has any
   * other shape or when its value does not fit a 64-bit `Int`.
   */
  function ParseInt(s: string): (r: Option<int>)
    ensures r.Some? ==> IntMin <= r.value <= IntMax
    ensures r.Some? ==> |s| > 0 && (IsDigit(s[0]) || s[0] == '+' || s[0] == '-')
  {
    var signed := |s| > 0 && (s[0] == '+' || s[0] == '-');
    match ParseDigits(if signed then s[1..] else s)
    case None => None
    case Some(m) =>
      var v: int := if signed && s[0] == '-' then -(m as int) else m;
      if IntMin <= v <= IntMax then Some(v) else None
  }

  /** Printing and parsing agree on every value an `Int` can hold. */
  lemma ParseDecimal(n: nat)
    requires n <= IntMax
    ensures ParseInt(Decimal(n)) == Some(n)
  {
    var s := Decimal(n);
    assert IsDigit(s[0]);
  }

  /** Index of the last `.` in `s`, if there is one. */
  function LastDot(s: string): (r: Option<nat>)
    ensures r.Some? ==> r.value < |s| && s[r.value] == '.'
                        && forall i :: r.value < i < |s| ==> s[i] != '.'
    ensures r.None? ==> '.' !in s
  {
    if s == [] then None
    else if s[|s| - 1] == '.' then Some(|s| - 1)
    else LastDot(s[..|s| - 1])
  }

  /** `URL.pathExtension` of a last path component: the text after its last dot. */
  function PathExtension(name: string): string
  {
    match LastDot(name)
    case None => ""
    case Some(i) => name[i + 1..]
  }

  /** `deletingPathExtension().lastPathComponent`: the text before its last dot. */
  function DeletingPathExtension(name: string): string
  {
    match LastDot(name)
    case None => name
    case Some(i) => name[..i]
  }

  /**
   * Every name with a dot splits at its last dot into the two parts:
   * the extension holds no dot, and stem, dot and extension rebuild the name.
   */
  lemma {:induction false} ExtensionSplit(name: string)
    ensures '.' !in PathExtension(name)
    ensures '.' !in name ==> PathExtension(name) == "" && DeletingPathExtension(name) == name
    ensures '.' in name ==> name == DeletingPathExtension(name) + "." + PathExtension(name)
  {
    match LastDot(name)
    case None =>
    case Some(i) =>
      assert name == name[..i] + [name[i]] + name[i + 1..];
  }

  /** A name built as `stem.ext` splits back into `stem` and `ext`. */
  lemma SplitExtension(stem: string, ext: string)
    requires '.' !in ext
    ensures PathExtension(stem + "." + ext) == ext
    ensures DeletingPathExtension(stem + "." + ext) == stem
  {
    var name := stem + "." + ext;
    var d := LastDot(name);
    assert name[|stem|] == '.';
    if d.None? {
      assert false;
    }
    var i := d.value;
    if i != |stem| {
      assert false;
    }
    assert name[i + 1..] == ext;
    assert name[..i] == stem;
  }
}
