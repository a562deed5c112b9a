/** The slice of JavaScript's string and number semantics that the entitlement
    engine relies on: `split`/`join` on a one-character separator,
    `startsWith`, `replace` of a first occurrence, integer `toString`,
    `parseInt` without a radix, truthiness and strict equality of stored values,
    and `Math.floor` / `%` on integers. */
module JsSemantics {

  datatype Option<+T> = None | Some(value: T)

  /** A value as it sits in a stored record. `===` on two of these is datatype
      equality: a number never equals a string, whatever their digits. */
  datatype JsValue = Undefined | Null | Bool(b: bool) | Num(n: int) | Str(s: string)

  function StrictEquals(a: JsValue, b: JsValue): bool
  {
    a == b
  }

  /** A number and a string are never strictly equal. */
  lemma NumberNeverStrictEqualsString(n: int, s: string)
    ensures !StrictEquals(Num(n), Str(s))
  {
  }

  /** JavaScript truthiness (`x || y` picks `y` exactly when `x` is falsy). */
  predicate Truthy(v: JsValue)
  {
    match v
    case Undefined => false
    case Null => false
    case Bool(b) => b
    case Num(n) => n != 0
    case Str(s) => |s| > 0
  }

  // ---------------------------------------------------------------------------
  // Strings

  predicate StartsWith(s: string, prefix: string)
  {
    prefix <= s
  }

  /** Position of the first occurrence of `d` in `s`. */
  function IndexOf(s: string, d: char): (i: nat)
    requires d in s
    ensures i < |s| && s[i] == d && d !in s[..i]
  {
    if s[0] == d then 0
    else
      var j := IndexOf(s[1..], d);
      assert s[..j + 1] == [s[0]] + s[1..][..j];
      j + 1
  }

  /** `s.split(d)` for a one-character separator: always at least one field,
      and no field holds the separator. */
  function Split(s: string, d: char): (parts: seq<string>)
    ensures |parts| >= 1
    ensures forall k :: 0 <= k < |parts| ==> d !in parts[k]
    decreases |s|
  {
    if d !in s then [s]
    else
      var i := IndexOf(s, d);
      [s[..i]] + Split(s[i + 1..], d)
  }

  /** `parts.join(d)`. */
  function Join(parts: seq<string>, d: char): string
  {
    if |parts| == 0 then ""
    else if |parts| == 1 then parts[0]
    else parts[0] + [d] + Join(parts[1..], d)
  }

  /** Joining a field in front of at least one more puts a separator
      between them. */
  lemma JoinCons(x: string, parts: seq<string>, d: char)
    requires |parts| >= 1
    ensures Join([x] + parts, d) == x + [d] + Join(parts, d)
  {
    assert ([x] + parts)[1..] == parts;
  }

  /** A string holding the separator splits at its first occurrence. */
  lemma SplitAtFirst(s: string, d: char)
    requires d in s
    ensures Split(s, d) == [s[..IndexOf(s, d)]] + Split(s[IndexOf(s, d) + 1..], d)
  {
  }

  /** Joining the fields of a split gives back the original string. */
  lemma {:induction false} JoinSplit(s: string, d: char)
    ensures Join(Split(s, d), d) == s
    decreases |s|
  {
    if d in s {
      var i := IndexOf(s, d);
      var rest := s[i + 1..];
      SplitAtFirst(s, d);
      JoinCons(s[..i], Split(rest, d), d);
      JoinSplit(rest, d);
      assert s == s[..i] + [d] + rest;
    }
  }

  /** The first separator of `a + [d] + b` sits right after `a` when `a` has none. */
  lemma IndexOfAfterField(a: string, d: char, b: string)
    requires d !in a
    ensures d in a + [d] + b
    ensures IndexOf(a + [d] + b, d) == |a|
  {
    var s := a + [d] + b;
    assert s[|a|] == d;
  }

  /** A separator-free field followed by the separator splits off first. */
  lemma SplitCons(a: string, d: char, b: string)
    requires d !in a
    ensures Split(a + [d] + b, d) == [a] + Split(b, d)
  {
    var s := a + [d] + b;
    IndexOfAfterField(a, d, b);
    SplitAtFirst(s, d);
    assert s[..|a|] == a;
    assert s[|a| + 1..] == b;
  }

  /** Splitting the join of separator-free fields gives back the fields. */
  lemma {:induction false} SplitJoin(parts: seq<string>, d: char)
    requires |parts| >= 1
    requires forall k :: 0 <= k < |parts| ==> d !in parts[k]
    ensures Split(Join(parts, d), d) == parts
    decreases |parts|
  {
    if |parts| > 1 {
      var tail := parts[1..];
      assert d !in parts[0];
      SplitCons(parts[0], d, Join(tail, d));
      SplitJoin(tail, d);
      assert parts == [parts[0]] + tail;
    }
  }

  /** Dropping a leading non-separator character leaves the number of fields
      unchanged. */
  lemma {:induction false} SplitDropFirst(s: string, d: char)
    requires |s| > 0 && s[0] != d
    ensures |Split(s[1..], d)| == |Split(s, d)|
  {
    if d in s {
      var i := IndexOf(s, d);
      var j := IndexOf(s[1..], d);
      assert s[1..][..j] == s[1..j + 1];
      assert s[j + 1] == d;
      assert s[1..][j + 1..] == s[i + 1..];
    } else {
      assert forall k :: 0 <= k < |s[1..]| ==> s[1..][k] == s[k + 1];
      assert d !in s[1..];
    }
  }

  /** `s.replace(pattern, "")` with a string pattern: only the first
      occurrence is removed. */
  function ReplaceFirstWithEmpty(s: string, pattern: string): string
    decreases |s|
  {
    if pattern <= s then s[|pattern|..]
    else if |s| == 0 then s
    else [s[0]] + ReplaceFirstWithEmpty(s[1..], pattern)
  }

  /** When `s` starts with the pattern, the removed occurrence is that prefix. */
  lemma ReplacePrefix(s: string, pattern: string)
    requires StartsWith(s, pattern)
    ensures ReplaceFirstWithEmpty(s, pattern) == s[|pattern|..]
    ensures pattern + ReplaceFirstWithEmpty(s, pattern) == s
  {
    assert s == s[..|pattern|] + s[|pattern|..];
  }

  // ---------------------------------------------------------------------------
  // Decimal and hexadecimal digits

  predicate IsDigit(c: char)
  {
    '0' <= c <= '9'
  }

  predicate IsHexDigit(c: char)
  {
    IsDigit(c) || 'a' <= c <= 'f' || 'A' <= c <= 'F'
  }

  function DigitValue(c: char): nat
    requires IsDigit(c)
  {
    c as int - '0' as int
  }

  function HexDigitValue(c: char): nat
    requires IsHexDigit(c)
  {
    if IsDigit(c) then DigitValue(c)
    else if 'a' <= c <= 'f' then c as int - 'a' as int + 10
    else c as int - 'A' as int + 10
  }

  predicate AllDigits(s: string)
  {
    forall k :: 0 <= k < |s| ==> IsDigit(s[k])
  }

  /** The value of a run of decimal digits, most significant first. */
  function DecimalValue(s: string): nat
    requires AllDigits(s)
  {
    if |s| == 0 then 0
    else DecimalValue(s[..|s| - 1]) * 10 + DigitValue(s[|s| - 1])
  }

  function HexValue(s: string): nat
    requires forall k :: 0 <= k < |s| ==> IsHexDigit(s[k])
  {
    if |s| == 0 then 0
    else HexValue(s[..|s| - 1]) * 16 + HexDigitValue(s[|s| - 1])
  }

  function DigitChar(n: nat): (c: char)
    requires n < 10
    ensures IsDigit(c) && DigitValue(c) == n
  {
    ('0' as int + n) as char
  }

  /** `n.toString()` for a non-negative integer: the shortest decimal numeral. */
  function NatToString(n: nat): (s: string)
    ensures |s| >= 1 && AllDigits(s)
    ensures DecimalValue(s) == n
  {
    if n < 10 then [DigitChar(n)]
    else
      var s := NatToString(n / 10) + [DigitChar(n % 10)];
      assert s[..|s| - 1] == NatToString(n / 10);
      s
  }

  /** `String(x)` for the result of `parseInt`. */
  function NumberToString(x: ParsedInt): string
  {
    match x
    case NaN => "NaN"
    case Int(n) => if n >= 0 then NatToString(n) else "-" + NatToString(-n)
  }

  // ---------------------------------------------------------------------------
  // parseInt without a radix

  /** What `parseInt` can return on a string whose numeral fits exactly. */
  datatype ParsedInt = NaN | Int(n: int)

  /** The characters `parseInt` skips before the numeral: the ECMAScript
      white-space and line-terminator code points. */
  predicate IsJsSpace(c: char)
  {
    var k := c as int;
    k == 0x09 || k == 0x0A || k == 0x0B || k == 0x0C || k == 0x0D || k == 0x20
    || k == 0xA0 || k == 0x1680 || (0x2000 <= k <= 0x200A) || k == 0x2028
    || k == 0x2029 || k == 0x202F || k == 0x205F || k == 0x3000 || k == 0xFEFF
  }

  function TrimStart(s: string): (t: string)
    ensures |t| <= |s|
    ensures |t| > 0 ==> !IsJsSpace(t[0])
    decreases |s|
  {
    if |s| > 0 && IsJsSpace(s[0]) then TrimStart(s[1..]) else s
  }

  /** Length of the longest prefix of decimal digits. */
  function DigitRun(s: string): (n: nat)
    ensures n <= |s| && AllDigits(s[..n])
    ensures n < |s| ==> !IsDigit(s[n])
  {
    if |s| > 0 && IsDigit(s[0]) then
      var r := DigitRun(s[1..]);
      assert s[..r + 1] == [s[0]] + s[1..][..r];
      r + 1
    else 0
  }

  /** Length of the longest prefix of hexadecimal digits. */
  function HexRun(s: string): (n: nat)
    ensures n <= |s| && forall k :: 0 <= k < n ==> IsHexDigit(s[k])
    ensures n < |s| ==> !IsHexDigit(s[n])
  {
    if |s| > 0 && IsHexDigit(s[0]) then
      var r := HexRun(s[1..]);
      assert forall k :: 1 <= k < r + 1 ==> s[k] == s[1..][k - 1];
      r + 1
    else 0
  }

  /** `parseInt(s)`: skip leading white space, read an optional sign, switch
      to base 16 after a `0x`/`0X` prefix, then read the longest run of digits;
      no digit at all gives `NaN`. Trailing text is ignored. */
  function ParseInt(s: string): (r: ParsedInt)
    ensures TrimStart(s) == "" ==> r.NaN?
    ensures |s| > 0 && AllDigits(s) ==> r == Int(DecimalValue(s))
    ensures r.Int? && r.n < 0 ==> |TrimStart(s)| > 0 && TrimStart(s)[0] == '-'
  {
    NumeralReadWhole(s);
    var t := TrimStart(s);
    var negative := |t| > 0 && t[0] == '-';
    var u := if |t| > 0 && (t[0] == '+' || t[0] == '-') then t[1..] else t;
    var sign := if negative then -1 else 1;
    if |u| >= 2 && u[0] == '0' && (u[1] == 'x' || u[1] == 'X') then
      var h := HexRun(u[2..]);
      if h == 0 then NaN else Int(sign * HexValue(u[2..][..h]))
    else
      var k := DigitRun(u);
      if k == 0 then NaN else Int(sign * DecimalValue(u[..k]))
  }

  /** A plain decimal numeral has no white space or sign to skip and is one
      run of digits. */
  lemma NumeralReadWhole(s: string)
    ensures |s| > 0 && AllDigits(s) ==> TrimStart(s) == s && DigitRun(s) == |s| && s[..|s|] == s
  {
    if |s| > 0 && AllDigits(s) {
      assert IsDigit(s[0]);
      DigitRunAll(s);
    }
  }

  lemma DigitRunAll(s: string)
    requires AllDigits(s)
    ensures DigitRun(s) == |s|
  {
  }

  /** `parseInt` reads back every numeral that `toString` prints. */
  lemma ParseIntNatToString(n: nat)
    ensures ParseInt(NatToString(n)) == Int(n)
  {
    var s := NatToString(n);
    assert IsDigit(s[0]);
    assert TrimStart(s) == s;
    DigitRunAll(s);
    assert s[..|s|] == s;
  }

  // ---------------------------------------------------------------------------
  // Integer arithmetic as JavaScript writes it

  /** `Math.floor(a / b)` for a positive divisor. */
  function FloorDiv(a: int, b: int): (q: int)
    requires b > 0
    ensures q * b <= a < (q + 1) * b
  {
    a / b
  }

  /** The quotient JavaScript's `%` pairs with: rounded toward zero. */
  function TruncDiv(a: int, b: int): int
    requires b > 0
  {
    if a >= 0 then a / b else -((-a) / b)
  }

  /** `a % b` for a positive divisor: the remainder takes the sign of `a` and
      completes the quotient rounded toward zero. */
  function TruncRem(a: int, b: int): (r: int)
    requires b > 0
    ensures a >= 0 ==> 0 <= r < b
    ensures a < 0 ==> -b < r <= 0
    ensures a == TruncDiv(a, b) * b + r
  {
    if a >= 0 then a % b
    else
      var q := (-a) / b;
      assert -a == q * b + (-a) % b;
      assert -q * b == -(q * b);
      -((-a) % b)
  }
}
