/** The JavaScript semantics the handlers depend on: truthiness (`!x`), `parseInt`, `Number`
    (through `isNaN` and unary `+`), `String` (template literals), `trim`, `startsWith`,
    `includes` and `split`. Numbers in this model are integers. */
module Js {
  import opened Wrappers

  /** A request field as it arrives in a parsed JSON body. */
  datatype Val = Undefined | Null | Str(s: string) | Num(n: int)

  /** The negation of `!v`: undefined, null, "" and 0 are falsy, everything else truthy. */
  predicate Truthy(v: Val) {
    match v
    case Undefined => false
    case Null => false
    case Str(s) => s != ""
    case Num(n) => n != 0
  }

  /** `String(v)`, which is also what a template literal `${v}` prints. */
  function ToStr(v: Val): string {
    match v
    case Undefined => "undefined"
    case Null => "null"
    case Str(s) => s
    case Num(n) => IntToString(n)
  }

  /** The characters JavaScript's `trim`, `parseInt`, `Number` and the regular-expression class
      `\s` treat as white space: the WhiteSpace and LineTerminator productions. */
  predicate IsSpace(c: char) {
    || c == '\t' || c == '\n' || c == '\U{000B}' || c == '\U{000C}' || c == '\r' || c == ' '
    || c == '\U{00A0}' || c == '\U{1680}' || ('\U{2000}' <= c <= '\U{200A}')
    || c == '\U{2028}' || c == '\U{2029}' || c == '\U{202F}' || c == '\U{205F}'
    || c == '\U{3000}' || c == '\U{FEFF}'
  }

  /** `s` without its leading white space. */
  function TrimStart(s: string): (r: string)
    ensures |r| <= |s| && r == s[|s| - |r|..]
    ensures |r| > 0 ==> !IsSpace(r[0])
    ensures forall i :: 0 <= i < |s| - |r| ==> IsSpace(s[i])
  {
    if |s| > 0 && IsSpace(s[0]) then TrimStart(s[1..]) else s
  }

  /** `s` without its trailing white space. */
  function TrimEnd(s: string): (r: string)
    ensures |r| <= |s| && r == s[..|r|]
    ensures |r| > 0 ==> !IsSpace(r[|r| - 1])
    ensures forall i :: |r| <= i < |s| ==> IsSpace(s[i])
  {
    if |s| > 0 && IsSpace(s[|s| - 1]) then TrimEnd(s[..|s| - 1]) else s
  }

  /** `s.trim()`. */
  function Trim(s: string): string {
    TrimEnd(TrimStart(s))
  }

  /** A leading space does not change what `trim` leaves. */
  lemma TrimLeadingSpace(m: string)
    ensures Trim(" " + m) == Trim(m)
  {
    var padded := " " + m;
    assert padded[0] == ' ' && padded[1..] == m;
    assert IsSpace(' ');
    assert TrimStart(padded) == TrimStart(m);
  }

  /** A string is blank after trimming exactly when every character is white space. */
  lemma TrimEmptyIffBlank(s: string)
    ensures Trim(s) == "" <==> forall i :: 0 <= i < |s| ==> IsSpace(s[i])
  {
    var t := TrimStart(s);
    if |t| > 0 {
      assert |TrimEnd(t)| >= 1;
      assert s[|s| - |t|] == t[0];
    }
  }

  /** The value of `c` as a digit in `radix` (at most 36), if it is one. */
  function DigitIn(c: char, radix: nat): (d: Option<nat>)
    ensures d.Some? ==> d.value < radix
  {
    var v: int :=
      if '0' <= c <= '9' then c as int - '0' as int
      else if 'a' <= c <= 'z' then c as int - 'a' as int + 10
      else if 'A' <= c <= 'Z' then c as int - 'A' as int + 10
      else -1;
    if 0 <= v < radix then Some(v as nat) else None
  }

  predicate AllDigits(s: string, radix: nat) {
    forall i :: 0 <= i < |s| ==> DigitIn(s[i], radix).Some?
  }

  /** The length of the longest prefix of `s` made of digits in `radix`. */
  function DigitRun(s: string, radix: nat): (n: nat)
    ensures n <= |s|
    ensures AllDigits(s[..n], radix)
    ensures n < |s| ==> DigitIn(s[n], radix).None?
  {
    if |s| == 0 || DigitIn(s[0], radix).None? then 0
    else
      var n := 1 + DigitRun(s[1..], radix);
      assert forall i :: 1 <= i < n ==> s[..n][i] == s[1..][..n - 1][i - 1];
      n
  }

  /** The value of a digit string in `radix`, most significant digit first. */
  function ValueIn(d: string, radix: nat): nat
    requires AllDigits(d, radix)
  {
    if |d| == 0 then 0
    else ValueIn(d[..|d| - 1], radix) * radix + DigitIn(d[|d| - 1], radix).value
  }

  /** The decimal digit for `n`. */
  function DigitChar(n: nat): (c: char)
    requires n < 10
    ensures DigitIn(c, 10) == Some(n)
  {
    ('0' as int + n) as char
  }

  /** The decimal spelling of `n` without leading zeros. */
  function NatToString(n: nat): (s: string)
    ensures |s| >= 1 && AllDigits(s, 10)
    ensures |s| >= 2 ==> s[0] != '0'
    decreases n
  {
    if n < 10 then [DigitChar(n)]
    else NatToString(n / 10) + [DigitChar(n % 10)]
  }

  /** `String(n)` for an integer `n`. */
  function IntToString(n: int): string {
    if n < 0 then "-" + NatToString(-n) else NatToString(n)
  }

  /** Reading back the decimal spelling of `n` yields `n`. */
  lemma {:induction false} ValueOfNatToString(n: nat)
    ensures ValueIn(NatToString(n), 10) == n
    decreases n
  {
    var s := NatToString(n);
    if n >= 10 {
      assert s[..|s| - 1] == NatToString(n / 10);
      ValueOfNatToString(n / 10);
    }
  }

  /** The digits after an optional sign, as parseInt reads them: a `0x`/`0X` prefix selects
      base 16, then the longest run of digits is read and anything after it is ignored. */
  function ParseDigits(u: string): Option<nat> {
    var hex := |u| >= 2 && u[0] == '0' && (u[1] == 'x' || u[1] == 'X');
    var radix := if hex then 16 else 10;
    var body := if hex then u[2..] else u;
    var n := DigitRun(body, radix);
    if n == 0 then None else Some(ValueIn(body[..n], radix))
  }

  /** `parseInt(s)` with no radix argument; None stands for NaN. Leading white space and one
      sign are skipped first. */
  function ParseIntString(s: string): Option<int> {
    var t := TrimStart(s);
    if |t| > 0 && t[0] == '-' then
      match ParseDigits(t[1..])
      case None => None
      case Some(m) => Some(-(m as int))
    else if |t| > 0 && t[0] == '+' then ParseDigits(t[1..])
    else ParseDigits(t)
  }

  /** `parseInt(v)`: the argument is first converted with `String`. */
  function ParseInt(v: Val): Option<int> {
    ParseIntString(ToStr(v))
  }

  /** The longest digit run of a digit string followed by a non-digit is that string. */
  lemma {:induction false} DigitRunOfLiteral(d: string, rest: string, radix: nat)
    requires AllDigits(d, radix)
    requires |rest| > 0 ==> DigitIn(rest[0], radix).None?
    ensures DigitRun(d + rest, radix) == |d|
  {
    if |d| > 0 {
      assert (d + rest)[0] == d[0];
      assert (d + rest)[1..] == d[1..] + rest;
      DigitRunOfLiteral(d[1..], rest, radix);
    } else {
      assert d + rest == rest;
    }
  }

  /** A decimal digit is not a letter, a sign or white space. */
  lemma DecimalDigitIsPlain(c: char)
    requires DigitIn(c, 10).Some?
    ensures '0' <= c <= '9' && !IsSpace(c)
  {
  }

  /** ParseDigits of a decimal literal followed by text that does not continue it. */
  lemma ParseDigitsOfLiteral(d: string, rest: string)
    requires |d| >= 1 && AllDigits(d, 10)
    requires |rest| > 0 ==> DigitIn(rest[0], 10).None?
    requires d[0] == '0' && |d| == 1 && |rest| > 0 ==> rest[0] != 'x' && rest[0] != 'X'
    ensures ParseDigits(d + rest) == Some(ValueIn(d, 10))
  {
    var u := d + rest;
    assert u[0] == d[0];
    if |d| >= 2 {
      assert u[1] == d[1];
      DecimalDigitIsPlain(d[1]);
    } else if |rest| > 0 {
      assert u[1] == rest[0];
    }
    assert !(|u| >= 2 && u[0] == '0' && (u[1] == 'x' || u[1] == 'X'));
    DigitRunOfLiteral(d, rest, 10);
    assert u[..|d|] == d;
    assert ParseDigits(u) == Some(ValueIn(u[..|d|], 10));
  }

  /** A string that does not start with white space is its own TrimStart. */
  lemma TrimStartNoSpace(s: string)
    requires |s| > 0 && !IsSpace(s[0])
    ensures TrimStart(s) == s
  {
  }

  /** parseInt reads back what String wrote: the two are inverse on integers. */
  lemma ParseIntOfIntToString(n: int)
    ensures ParseIntString(IntToString(n)) == Some(n)
  {
    var m: nat := if n < 0 then -n else n;
    var d := NatToString(m);
    ParseDigitsOfNatToString(m);
    var s := IntToString(n);
    if n < 0 {
      assert s == "-" + d && s[0] == '-';
      TrimStartNoSpace(s);
      assert s[1..] == d;
    } else {
      assert s == d;
      TrimStartNoSpace(s);
    }
  }

  /** The digits of `String(m)` read back as `m`, and they start with a decimal digit. */
  lemma ParseDigitsOfNatToString(m: nat)
    ensures ParseDigits(NatToString(m)) == Some(m)
    ensures '0' <= NatToString(m)[0] <= '9' && !IsSpace(NatToString(m)[0])
  {
    var d := NatToString(m);
    ValueOfNatToString(m);
    assert d + "" == d;
    ParseDigitsOfLiteral(d, "");
    DecimalDigitIsPlain(d[0]);
  }

  /** `parseInt(n)` for a number `n` is `n`. */
  lemma ParseIntOfNumber(n: int)
    ensures ParseInt(Num(n)) == Some(n)
  {
    ParseIntOfIntToString(n);
  }

  /** parseInt is lenient: a decimal literal followed by any text that does not continue it
      (a non-digit, and not an `x` right after a lone `0`) parses as that literal. */
  lemma ParseIntIgnoresSuffix(d: string, rest: string)
    requires |d| >= 1 && AllDigits(d, 10)
    requires |rest| > 0 ==> DigitIn(rest[0], 10).None?
    requires d == "0" && |rest| > 0 ==> rest[0] != 'x' && rest[0] != 'X'
    ensures ParseIntString(d + rest) == Some(ValueIn(d, 10))
  {
    ParseDigitsOfLiteral(d, rest);
    DecimalDigitIsPlain(d[0]);
    assert (d + rest)[0] == d[0];
    TrimStartNoSpace(d + rest);
  }

  /** A whole string of digits in `radix`, as Number reads it; None when empty or when any
      character is not such a digit. */
  function WholeDigits(body: string, radix: nat): Option<nat> {
    if |body| > 0 && DigitRun(body, radix) == |body| then
      assert body[..|body|] == body;
      Some(ValueIn(body, radix))
    else None
  }

  /** A trimmed, non-blank numeric literal as Number reads it, restricted to integers. */
  function IntegerLiteral(t: string): Option<int>
    requires |t| > 0
  {
    if |t| >= 2 && t[0] == '0' && t[1] in "xXoObB" then
      WholeDigits(t[2..], if t[1] in "xX" then 16 else if t[1] in "oO" then 8 else 2)
    else if t[0] == '-' then
      match WholeDigits(t[1..], 10)
      case None => None
      case Some(m) => Some(-(m as int))
    else if t[0] == '+' then WholeDigits(t[1..], 10)
    else WholeDigits(t, 10)
  }

  /** `Number(s)` for a string, restricted to integer literals: surrounding white space is
      ignored, a blank string is 0, otherwise the whole remainder must be a signed decimal
      literal or a `0x`, `0o` or `0b` literal. None stands for NaN. */
  function StringToNumber(s: string): Option<int> {
    var t := Trim(s);
    if t == "" then Some(0) else IntegerLiteral(t)
  }

  /** `Number(v)`; `+v` is the same conversion. */
  function ToNumber(v: Val): Option<int> {
    match v
    case Undefined => None
    case Null => Some(0)
    case Str(s) => StringToNumber(s)
    case Num(n) => Some(n)
  }

  /** The global `isNaN(v)`, which converts with `Number` first. */
  predicate IsNaN(v: Val) {
    ToNumber(v).None?
  }

  /** TrimEnd keeps every position up to the last non-space character. */
  lemma TrimEndKeeps(s: string, k: nat)
    requires k < |s| && !IsSpace(s[k])
    ensures |TrimEnd(s)| > k
  {
  }

  /** Number() is strict where parseInt is lenient: `Number` rejects a decimal literal followed
      by other text, so "12abc" passes parseInt but fails isNaN. */
  lemma NumberRejectsSuffix(d: string, rest: string)
    requires |d| >= 1 && AllDigits(d, 10)
    requires |rest| > 0 && !IsSpace(rest[0]) && DigitIn(rest[0], 10).None?
    requires d == "0" ==> rest[0] !in "xXoObB"
    ensures StringToNumber(d + rest) == None
  {
    var s := d + rest;
    DecimalDigitIsPlain(d[0]);
    assert s[0] == d[0];
    TrimStartNoSpace(s);
    assert s[|d|] == rest[0];
    TrimEndKeeps(s, |d|);
    var t := Trim(s);
    assert t == s[..|t|];
    assert t[0] == d[0];
    if |d| >= 2 {
      assert t[1] == d[1];
      DecimalDigitIsPlain(d[1]);
    } else {
      assert t[1] == rest[0];
    }
    assert t == d + t[|d|..];
    assert t[|d|..][0] == rest[0];
    DigitRunOfLiteral(d, t[|d|..], 10);
  }

  /** A nullable string that JavaScript finds truthy: present and non-empty. */
  predicate Present(u: Option<string>) {
    u.Some? && u.value != ""
  }

  /** `s.startsWith(prefix)`. */
  predicate StartsWith(s: string, prefix: string) {
    |prefix| <= |s| && s[..|prefix|] == prefix
  }

  /** `s.includes(sub)`. */
  predicate Includes(s: string, sub: string)
    decreases |s|
  {
    StartsWith(s, sub) || (|s| > 0 && Includes(s[1..], sub))
  }

  /** `sub` occurs in `s` starting at index `i`. */
  predicate OccursAt(s: string, sub: string, i: int) {
    0 <= i <= |s| - |sub| && s[i..i + |sub|] == sub
  }

  /** `includes` holds exactly when `sub` occurs at some position of `s`. */
  lemma {:induction false} IncludesIffOccurs(s: string, sub: string)
    ensures Includes(s, sub) <==> exists i :: OccursAt(s, sub, i)
    decreases |s|
  {
    if StartsWith(s, sub) {
      assert OccursAt(s, sub, 0);
    } else if |s| > 0 {
      IncludesIffOccurs(s[1..], sub);
      if exists i :: OccursAt(s, sub, i) {
        var i :| OccursAt(s, sub, i);
        assert i != 0;
        assert s[1..][i - 1..i - 1 + |sub|] == s[i..i + |sub|];
        assert OccursAt(s[1..], sub, i - 1);
      }
      if Includes(s[1..], sub) {
        var i :| OccursAt(s[1..], sub, i);
        assert s[i + 1..i + 1 + |sub|] == s[1..][i..i + |sub|];
        assert OccursAt(s, sub, i + 1);
      }
    } else {
      assert |sub| > 0;
    }
  }

  /** `s.split(sep)` for a one-character separator. */
  function Split(s: string, sep: char): (parts: seq<string>)
    ensures |parts| >= 1
  {
    if |s| == 0 then [""]
    else
      var rest := Split(s[1..], sep);
      if s[0] == sep then [""] + rest
      else [[s[0]] + rest[0]] + rest[1..]
  }

  /** No part of a split holds the separator. */
  lemma {:induction false} SplitPartsFree(s: string, sep: char)
    ensures forall i :: 0 <= i < |Split(s, sep)| ==> sep !in Split(s, sep)[i]
  {
    if |s| > 0 {
      SplitPartsFree(s[1..], sep);
      var rest := Split(s[1..], sep);
      if s[0] != sep {
        var parts := [[s[0]] + rest[0]] + rest[1..];
        forall i | 0 <= i < |parts|
          ensures sep !in parts[i]
        {
          if i > 0 {
            assert parts[i] == rest[i];
          }
        }
      }
    }
  }

  /** `parts.join(sep)`. */
  function Join(parts: seq<string>, sep: char): string
    requires |parts| >= 1
  {
    if |parts| == 1 then parts[0] else parts[0] + [sep] + Join(parts[1..], sep)
  }

  /** Joining the pieces of a split gives back the original string. */
  lemma {:induction false} JoinSplit(s: string, sep: char)
    ensures Join(Split(s, sep), sep) == s
  {
    if |s| > 0 {
      var rest := Split(s[1..], sep);
      JoinSplit(s[1..], sep);
      if s[0] == sep {
        assert ([""] + rest)[1..] == rest;
      } else {
        var parts := [[s[0]] + rest[0]] + rest[1..];
        if |rest| == 1 {
          assert parts == [[s[0]] + rest[0]];
        } else {
          assert parts[1..] == rest[1..];
          assert Join(rest, sep) == rest[0] + [sep] + Join(rest[1..], sep);
        }
      }
    }
  }

  /** A string without the separator splits into itself. */
  lemma {:induction false} SplitNoSeparator(s: string, sep: char)
    requires sep !in s
    ensures Split(s, sep) == [s]
  {
    if |s| > 0 {
      assert sep !in s[1..];
      SplitNoSeparator(s[1..], sep);
      assert s == [s[0]] + s[1..];
    }
  }

  /** Splitting a string one character at a time. */
  lemma SplitCons(c: char, t: string, sep: char)
    ensures Split([c] + t, sep) ==
              if c == sep then [""] + Split(t, sep)
              else [[c] + Split(t, sep)[0]] + Split(t, sep)[1..]
  {
    assert ([c] + t)[0] == c && ([c] + t)[1..] == t;
  }

  /** Splitting at a separator splits each side independently. */
  lemma {:induction false} SplitAtSeparator(a: string, b: string, sep: char)
    ensures Split(a + [sep] + b, sep) == Split(a, sep) + Split(b, sep)
  {
    if |a| == 0 {
      assert a + [sep] + b == [sep] + b;
      SplitCons(sep, b, sep);
    } else {
      var c := a[0];
      var t := a[1..] + [sep] + b;
      assert a + [sep] + b == [c] + t;
      assert a == [c] + a[1..];
      SplitCons(c, t, sep);
      SplitCons(c, a[1..], sep);
      SplitAtSeparator(a[1..], b, sep);
      if c != sep {
        ExtendFirst([c], Split(a[1..], sep), Split(b, sep));
      }
    }
  }

  /** Prefixing the first part of a concatenation of part lists. */
  lemma ExtendFirst(c: string, ra: seq<string>, rb: seq<string>)
    requires |ra| >= 1
    ensures [c + (ra + rb)[0]] + (ra + rb)[1..] == ([c + ra[0]] + ra[1..]) + rb
  {
    assert (ra + rb)[0] == ra[0];
    assert (ra + rb)[1..] == ra[1..] + rb;
  }

  /** Splitting a join of separator-free pieces gives back the pieces. */
  lemma {:induction false} SplitJoin(parts: seq<string>, sep: char)
    requires |parts| >= 1
    requires forall i :: 0 <= i < |parts| ==> sep !in parts[i]
    ensures Split(Join(parts, sep), sep) == parts
  {
    SplitNoSeparator(parts[0], sep);
    if |parts| > 1 {
      SplitJoin(parts[1..], sep);
      SplitAtSeparator(parts[0], Join(parts[1..], sep), sep);
      assert parts == [parts[0]] + parts[1..];
    }
  }
}
