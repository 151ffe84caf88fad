/**
 * Scalars of the configuration file and of front matter, Python's
 * truthiness and `str()` on them, decimal digits, and the ways a run aborts.
 */
module Values {
  import opened Paths

  /** A scalar as a YAML document can give it. */
  datatype Value = Str(s: string) | Bool(b: bool) | Int(i: int) | Nil

  /** What a YAML document parses to: a mapping, or anything else (None, a list, a scalar). */
  datatype YamlDoc = Mapping(entries: map<string, Value>) | NotMapping

  /** Python's `if value:`. */
  predicate Truthy(v: Value) {
    match v
    case Str(s) => s != ""
    case Bool(b) => b
    case Int(i) => i != 0
    case Nil => false
  }

  predicate IsDigit(c: char) {
    '0' <= c <= '9'
  }

  predicate AllDigits(s: string) {
    forall k :: 0 <= k < |s| ==> IsDigit(s[k])
  }

  function DigitChar(d: nat): (c: char)
    requires d < 10
    ensures IsDigit(c) && c as int - '0' as int == d
  {
    ('0' as int + d) as char
  }

  /** `str(n)` for a natural number. */
  function NatToDecimal(n: nat): (r: string)
    ensures r != [] && AllDigits(r)
  {
    if n < 10 then [DigitChar(n)] else NatToDecimal(n / 10) + [DigitChar(n % 10)]
  }

  /** `int(s)` for a string of ASCII digits. */
  function DigitsValue(s: string): nat
    requires AllDigits(s)
  {
    if s == [] then 0
    else DigitsValue(s[..|s| - 1]) * 10 + (s[|s| - 1] as int - '0' as int)
  }

  /** Reading back the decimal text of `n` gives `n`. */
  lemma {:induction false} DecimalRoundTrip(n: nat)
    ensures DigitsValue(NatToDecimal(n)) == n
  {
    if n >= 10 {
      var r := NatToDecimal(n);
      assert r[..|r| - 1] == NatToDecimal(n / 10);
      DecimalRoundTrip(n / 10);
    }
  }

  lemma ShiftDigit(x: int, p: int, v: int, d: int)
    ensures (x * p + v) * 10 + d == x * (p * 10) + (v * 10 + d)
  {
  }

  lemma AllDigitsAppend(a: string, b: string)
    requires AllDigits(a) && AllDigits(b)
    ensures AllDigits(a + b)
  {
    forall k | 0 <= k < |a + b| ensures IsDigit((a + b)[k]) {
      if k < |a| { assert (a + b)[k] == a[k]; } else { assert (a + b)[k] == b[k - |a|]; }
    }
  }

  /** The value of a string of digits after a prefix of digits. */
  lemma {:induction false} DigitsValueAppend(a: string, b: string)
    requires AllDigits(a) && AllDigits(b)
    ensures AllDigits(a + b)
    ensures DigitsValue(a + b) == DigitsValue(a) * Pow10(|b|) + DigitsValue(b)
    decreases |b|
  {
    AllDigitsAppend(a, b);
    if b != [] {
      var b' := b[..|b| - 1];
      var d := b[|b| - 1] as int - '0' as int;
      assert (a + b)[..|a + b| - 1] == a + b';
      DigitsValueAppend(a, b');
      var x, p, v := DigitsValue(a), Pow10(|b'|), DigitsValue(b');
      assert DigitsValue(a + b) == (x * p + v) * 10 + d;
      assert DigitsValue(b) == v * 10 + d;
      assert Pow10(|b|) == p * 10;
      ShiftDigit(x, p, v, d);
    } else {
      assert a + b == a;
    }
  }

  function Pow10(n: nat): (r: nat)
    ensures r >= 1
  {
    if n == 0 then 1 else 10 * Pow10(n - 1)
  }

  /** `str(v)` as `str.format` inserts a value. */
  function Display(v: Value): string {
    match v
    case Str(s) => s
    case Bool(b) => if b then "True" else "False"
    case Int(i) => if i < 0 then "-" + NatToDecimal(-i) else NatToDecimal(i)
    case Nil => "None"
  }

  /** `base.update(top)` on a copy of `base`: keys of `top` win, every other key keeps its value. */
  function Overlay(base: map<string, Value>, top: map<string, Value>): (r: map<string, Value>)
    ensures r.Keys == base.Keys + top.Keys
    ensures forall k :: k in top ==> r[k] == top[k]
    ensures forall k :: k in base && k !in top ==> r[k] == base[k]
  {
    base + top
  }

  /** Every way a run of the generator aborts. */
  datatype Error =
    | ConfigUnreadable                       // `open('config.yaml')` fails
    | ConfigNotMapping                       // `dict.update` with a document that is not a mapping
    | NotText(key: string)                   // a path setting that is not a string
    | MissingKey(key: string)                // `config[key]` on an absent key
    | FrontMatterNotMapping                  // front matter that is not a key/value document
    | ExcerptNotText                         // a front-matter `excerpt` mistune cannot render
    | YearNotInteger(yearText: string)       // `datetime(year, ...)` with the year still a string
    | InvalidDate(year: int, month: int, day: int)
    | Unreadable(path: PurePath)             // reading a source file fails
    | NoOutputName                           // `Path / None`
}
