/**
 `accounts/hd.go`: the textual form of BIP-32 derivation paths.  Components are
 32-bit; the upper half of the range is hardened and written with a quote.
 */
module DerivationPaths {
  import opened Prelude

  const HARDENED: nat := 0x8000_0000
  const MAX_U32: nat := 0xFFFF_FFFF

  type Path = seq<nat>

  const DEFAULT_ROOT: Path := [HARDENED + 44, HARDENED + 60, HARDENED, 0]

  datatype Error = EmptyPath | Ambiguous | InvalidComponent(component: string) | OutOfRange(value: int, hardened: bool)

  datatype Result<+T> = Ok(value: T) | Err(error: Error)

  ghost predicate InRange(path: Path) {
    forall i :: 0 <= i < |path| ==> path[i] <= MAX_U32
  }

  // ---------------------------------------------------------------- strings

  /** `unicode.IsSpace`. */
  predicate IsSpace(c: char) {
    c in {'\t', '\n', '\U{B}', '\U{C}', '\r', ' ', '\U{85}', '\U{A0}', '\U{1680}', '\U{2028}', '\U{2029}', '\U{202F}',
          '\U{205F}', '\U{3000}'}
    || '\U{2000}' <= c <= '\U{200A}'
  }

  function TrimLeft(s: string): string {
    if s != [] && IsSpace(s[0]) then TrimLeft(s[1..]) else s
  }

  function TrimRight(s: string): string {
    if s != [] && IsSpace(s[|s| - 1]) then TrimRight(s[..|s| - 1]) else s
  }

  function TrimSpace(s: string): string {
    TrimRight(TrimLeft(s))
  }

  /** `strings.Split` by slashes: at least one part, even of nothing. */
  function Split(s: string): (parts: seq<string>)
    ensures |parts| > 0
  {
    if s == [] then [[]]
    else
      var parts := Split(s[1..]);
      if s[0] == '/' then [[]] + parts else [[s[0]] + parts[0]] + parts[1..]
  }

  // ---------------------------------------------------------------- numbers

  function DigitValue(c: char): nat {
    if '0' <= c <= '9' then (c as int) - ('0' as int)
    else if 'a' <= c <= 'z' then (c as int) - ('a' as int) + 10
    else if 'A' <= c <= 'Z' then (c as int) - ('A' as int) + 10
    else 64
  }

  /** Digits with single underscores between them; `digit` says whether an underscore may come next. */
  function Digits(s: string, base: nat, digit: bool, value: nat): Option<nat> {
    if s == [] then if digit then Some(value) else None
    else if s[0] == '_' then if digit then Digits(s[1..], base, false, value) else None
    else if DigitValue(s[0]) < base then Digits(s[1..], base, true, value * base + DigitValue(s[0]))
    else None
  }

  /** An unsigned literal: decimal, or binary, octal or hexadecimal by its prefix. */
  function Literal(s: string): Option<nat> {
    if s == [] then None
    else if s[0] != '0' then Digits(s, 10, false, 0)
    else if |s| == 1 then Some(0)
    else if s[1] in {'b', 'B', 'o', 'O', 'x', 'X'} then
      if |s| == 2 then None
      else Digits(s[2..], if s[1] in {'b', 'B'} then 2 else if s[1] in {'o', 'O'} then 8 else 16, true, 0)
    else Digits(s[1..], 8, true, 0)
  }

  /** `big.Int.SetString` with base 0. */
  function SetString(s: string): Option<int> {
    if s != [] && s[0] == '-' then
      var v := Literal(s[1..]);
      if v == None then None else Some(-(v.value as int))
    else
      var v := Literal(if s != [] && s[0] == '+' then s[1..] else s);
      if v == None then None else Some(v.value)
  }

  // ---------------------------------------------------------------- parsing

  /** A component without the whitespace around it, and what a quote at its end makes of it. */
  function Unquoted(component: string): (string, nat) {
    var c := TrimSpace(component);
    if c != [] && c[|c| - 1] == '\'' then (TrimSpace(c[..|c| - 1]), HARDENED) else (c, 0)
  }

  function ParseComponent(component: string): (r: Result<nat>)
    ensures r.Ok? ==> r.value <= MAX_U32
  {
    var (c, value) := Unquoted(component);
    var v := SetString(c);
    if v == None then Err(InvalidComponent(c))
    else if v.value < 0 || v.value > MAX_U32 - value then Err(OutOfRange(v.value, value != 0))
    else Ok(value + v.value)
  }

  function ParseAll(components: seq<string>): (r: Result<Path>)
    ensures r.Ok? ==> |r.value| == |components| && forall i :: 0 <= i < |r.value| ==> r.value[i] <= MAX_U32
  {
    if components == [] then Ok([])
    else
      var front := ParseAll(components[..|components| - 1]);
      if front.Err? then front
      else
        var last := ParseComponent(components[|components| - 1]);
        if last.Err? then Err(last.error) else Ok(front.value + [last.value])
  }

  function Parse(path: string): (r: Result<Path>)
    ensures r.Ok? ==> r.value != [] && forall i :: 0 <= i < |r.value| ==> r.value[i] <= MAX_U32
  {
    var components := Split(path);
    var first := TrimSpace(components[0]);
    if first == "" then Err(Ambiguous)
    else if first == "m" then
      if |components| == 1 then Err(EmptyPath) else ParseAll(components[1..])
    else
      var r := ParseAll(components);
      if r.Err? then r else Ok(DEFAULT_ROOT + r.value)
  }

  /** An error ends parsing, wherever in the list it is. */
  lemma {:induction false} ErrorStops(components: seq<string>, k: nat)
    requires k <= |components| && ParseAll(components[..k]).Err?
    ensures ParseAll(components) == ParseAll(components[..k])
    decreases |components|
  {
    if k < |components| {
      var front := components[..|components| - 1];
      assert front[..k] == components[..k];
      ErrorStops(front, k);
    } else {
      assert components[..k] == components;
    }
  }

  method ParseDerivationPath(path: string) returns (r: Result<Path>)
    ensures r == Parse(path)
  {
    hide ParseComponent, Split, TrimSpace;
    var result: Path := [];
    var components := Split(path);
    if TrimSpace(components[0]) == "" {
      return Err(Ambiguous);
    } else if TrimSpace(components[0]) == "m" {
      components := components[1..];
    } else {
      result := DEFAULT_ROOT;
    }
    if |components| == 0 {
      return Err(EmptyPath);
    }
    ghost var root := result;
    for k := 0 to |components|
      invariant ParseAll(components[..k]).Ok? && result == root + ParseAll(components[..k]).value
    {
      assert components[..k + 1][..k] == components[..k];
      var v := ParseComponent(components[k]);
      if v.Err? {
        ErrorStops(components, k + 1);
        return Err(v.error);
      }
      result := result + [v.value];
    }
    assert components[..|components|] == components;
    assert root == [] ==> result == ParseAll(components).value;
    return Ok(result);
  }

  // ---------------------------------------------------------------- printing

  function DigitChar(d: nat): char
    requires d < 10
  {
    ('0' as int + d) as char
  }

  function Decimal(n: nat): (s: string)
    ensures s != []
  {
    if n < 10 then [DigitChar(n)] else Decimal(n / 10) + [DigitChar(n % 10)]
  }

  function PrintComponent(v: nat): string {
    if v >= HARDENED then Decimal(v - HARDENED) + "'" else Decimal(v)
  }

  function Print(path: Path): string {
    if path == [] then "m" else Print(path[..|path| - 1]) + "/" + PrintComponent(path[|path| - 1])
  }

  method ToString(path: Path) returns (s: string)
    ensures s == Print(path)
  {
    s := "m";
    for k := 0 to |path|
      invariant s == Print(path[..k])
    {
      assert path[..k + 1][..k] == path[..k];
      var component, hardened := path[k], false;
      if component >= HARDENED {
        component, hardened := component - HARDENED, true;
      }
      ghost var front := s;
      s := s + "/" + Decimal(component);
      if hardened {
        s := s + "'";
        assert s == front + "/" + (Decimal(component) + "'");
      }
    }
    assert path[..|path|] == path;
  }

  // ---------------------------------------------------------------- the round trip

  /** Neither a space, nor a slash, nor a quote, nor a sign. */
  ghost predicate IsDigit(c: char) {
    '0' <= c <= '9'
  }

  lemma {:induction false} DecimalIsDigits(n: nat)
    ensures forall i :: 0 <= i < |Decimal(n)| ==> IsDigit(Decimal(n)[i])
    ensures Decimal(n)[0] == '0' <==> n == 0
    ensures n == 0 ==> Decimal(n) == "0"
  {
    if n >= 10 {
      DecimalIsDigits(n / 10);
    }
  }

  /** Reading digits on from a value. */
  lemma {:induction false} DigitsAppend(s: string, c: char, digit: bool, value: nat)
    requires IsDigit(c) && Digits(s, 10, digit, value).Some?
    ensures Digits(s + [c], 10, digit, value) == Some(Digits(s, 10, digit, value).value * 10 + DigitValue(c))
  {
    if s == [] {
      assert (s + [c])[1..] == [];
    } else {
      assert (s + [c])[1..] == s[1..] + [c];
      if s[0] == '_' {
        DigitsAppend(s[1..], c, false, value);
      } else {
        DigitsAppend(s[1..], c, true, value * 10 + DigitValue(s[0]));
      }
    }
  }

  lemma {:induction false} DecimalReads(n: nat)
    ensures Digits(Decimal(n), 10, false, 0) == Some(n)
  {
    if n >= 10 {
      DecimalReads(n / 10);
      DigitsAppend(Decimal(n / 10), DigitChar(n % 10), false, 0);
    } else {
      assert Decimal(n)[1..] == [];
    }
  }

  lemma SetStringDecimal(n: nat)
    ensures SetString(Decimal(n)) == Some(n)
  {
    DecimalIsDigits(n);
    DecimalReads(n);
    assert IsDigit(Decimal(n)[0]);
  }

  lemma TrimNothing(s: string)
    requires s != [] && !IsSpace(s[0]) && !IsSpace(s[|s| - 1])
    ensures TrimSpace(s) == s
  {
  }

  lemma ComponentRoundTrip(v: nat)
    requires v <= MAX_U32
    ensures ParseComponent(PrintComponent(v)) == Ok(v)
  {
    var n := if v >= HARDENED then v - HARDENED else v;
    var d := Decimal(n);
    DecimalIsDigits(n);
    SetStringDecimal(n);
    assert IsDigit(d[0]) && IsDigit(d[|d| - 1]);
    TrimNothing(d);
    TrimNothing(PrintComponent(v));
    assert v >= HARDENED ==> PrintComponent(v)[..|PrintComponent(v)| - 1] == d;
  }

  ghost predicate NoSlash(s: string) {
    forall i :: 0 <= i < |s| ==> s[i] != '/'
  }

  lemma {:induction false} SplitWhole(s: string)
    requires NoSlash(s)
    ensures Split(s) == [s]
  {
    if s != [] {
      assert NoSlash(s[1..]);
      SplitWhole(s[1..]);
      assert [s[0]] + s[1..] == s;
    }
  }

  lemma {:induction false} SplitJoin(a: string, b: string)
    ensures Split(a + "/" + b) == Split(a) + Split(b)
  {
    var s := a + "/" + b;
    if a == [] {
      assert s[1..] == b;
    } else {
      SplitJoin(a[1..], b);
      assert s[0] == a[0] && s[1..] == a[1..] + "/" + b;
      SplitJoins(a[0], Split(a[1..]), Split(b));
    }
  }

  /** A character before a list of parts, with more parts behind it. */
  lemma SplitJoins(c: char, parts: seq<string>, more: seq<string>)
    requires parts != []
    ensures [[]] + (parts + more) == [[]] + parts + more
    ensures [[c] + (parts + more)[0]] + (parts + more)[1..] == [[c] + parts[0]] + parts[1..] + more
  {
    assert (parts + more)[1..] == parts[1..] + more;
  }

  lemma {:induction false} ParseJoin(a: seq<string>, b: seq<string>)
    requires ParseAll(a).Ok?
    ensures ParseAll(a + b)
      == if ParseAll(b).Err? then ParseAll(b) else Ok(ParseAll(a).value + ParseAll(b).value)
    decreases |b|
  {
    hide ParseComponent;
    var p := ParseAll(a).value;
    if b == [] {
      assert a + b == a && p + [] == p;
    } else {
      assert (a + b)[..|a + b| - 1] == a + b[..|b| - 1];
      ParseJoin(a, b[..|b| - 1]);
      assert ParseAll(b).Ok? ==>
        p + ParseAll(b).value == p + ParseAll(b[..|b| - 1]).value + [ParseAll(b).value[|b| - 1]];
    }
  }

  /** A relative path stands for the one below the default root, m/44'/60'/0'/0. */
  lemma RelativeIsRooted(path: string)
    requires TrimSpace(Split(path)[0]) !in {"", "m"}
    ensures Parse(Print([0x8000002C, 0x8000003C, 0x80000000, 0]) + "/" + path) == Parse(path)
  {
    hide Split, Print, ParseAll, TrimSpace;
    var root := Print(DEFAULT_ROOT);
    SplitPrinted(DEFAULT_ROOT);
    SplitJoin(root, path);
    TrimsNothing();
    assert (Split(root) + Split(path))[1..] == Split(root)[1..] + Split(path);
    ParseJoin(Split(root)[1..], Split(path));
  }

  lemma TrimsNothing()
    ensures TrimSpace("m") == "m"
  {
  }

  /** The base of a component follows its prefix, and a leading zero alone makes it octal. */
  lemma BasesAre()
    ensures SetString("10") == Some(10) && SetString("0x1F") == Some(31) && SetString("0b10") == Some(2)
    ensures SetString("0o17") == Some(15) && SetString("017") == Some(15) && SetString("09") == None
    ensures SetString("1_0") == Some(10) && SetString("_1") == None && SetString("-2") == Some(-2)
  {
    assert Digits("0", 10, true, 1) == Some(10) && Digits("F", 16, true, 1) == Some(31);
    assert Digits("0", 2, true, 1) == Some(2) && Digits("7", 8, true, 1) == Some(15);
    assert Digits("_0", 10, true, 1) == Digits("0", 10, false, 1) == Some(10);
    assert "10"[1..] == "0" && "1_0"[1..] == "_0" && "_0"[1..] == "0" && "0x1F"[2..] == "1F" && "1F"[1..] == "F";
    assert "0b10"[2..] == "10" && "0o17"[2..] == "17" && "017"[1..] == "17" && "17"[1..] == "7" && "09"[1..] == "9";
    assert "-2"[1..] == "2";
  }

  lemma {:induction false} SplitLast(a: string, b: string)
    requires NoSlash(b)
    ensures Split(a + "/" + b) == Split(a) + [b]
  {
    if a == [] {
      SplitWhole(b);
      assert (a + "/" + b)[1..] == b;
    } else {
      SplitLast(a[1..], b);
      assert (a + "/" + b)[1..] == a[1..] + "/" + b;
    }
  }

  lemma PrintedHasNoSlash(v: nat)
    ensures NoSlash(PrintComponent(v))
  {
    DecimalIsDigits(if v >= HARDENED then v - HARDENED else v);
  }

  /** The parts of a printed path: the root mark and one part for each component. */
  lemma {:induction false} SplitPrinted(path: Path)
    requires InRange(path)
    ensures Split(Print(path))[0] == "m" && |Split(Print(path))| == |path| + 1
    ensures ParseAll(Split(Print(path))[1..]) == Ok(path)
  {
    hide Split, PrintComponent, ParseComponent, ParseAll;
    if path == [] {
      SplitWhole("m");
      ParsesNothing();
    } else {
      var front, v := path[..|path| - 1], path[|path| - 1];
      SplitPrinted(front);
      PrintedHasNoSlash(v);
      SplitLast(Print(front), PrintComponent(v));
      ComponentRoundTrip(v);
      var parts := Split(Print(front));
      assert Split(Print(path))[1..] == parts[1..] + [PrintComponent(v)];
      ParsesOneMore(parts[1..], PrintComponent(v), front, v);
      assert path == front + [v];
    }
  }

  lemma ParsesNothing()
    ensures ParseAll([]) == Ok([])
  {
  }

  lemma ParsesOneMore(parts: seq<string>, last: string, front: Path, v: nat)
    requires ParseAll(parts) == Ok(front) && ParseComponent(last) == Ok(v)
    ensures ParseAll(parts + [last]) == Ok(front + [v])
  {
    hide ParseComponent;
    assert (parts + [last])[..|parts|] == parts;
  }

  /** Every path comes back from its printed form, the empty one excepted: it prints as an empty absolute path. */
  lemma RoundTrip(path: Path)
    requires InRange(path)
    ensures path != [] ==> Parse(Print(path)) == Ok(path)
    ensures path == [] ==> Parse(Print(path)) == Err(EmptyPath)
  {
    SplitPrinted(path);
    TrimNothing("m");
  }

  /** Printing what was parsed, however it was written, and parsing it again changes nothing. */
  lemma ParseIsStable(s: string)
    requires Parse(s).Ok?
    ensures Parse(Print(Parse(s).value)) == Parse(s)
  {
    RoundTrip(Parse(s).value);
  }

  /** Different paths print differently. */
  lemma PrintIsInjective(a: Path, b: Path)
    requires InRange(a) && InRange(b) && Print(a) == Print(b)
    ensures a == b
  {
    RoundTrip(a);
    RoundTrip(b);
  }

  // ---------------------------------------------------------------- whitespace

  ghost predicate AllSpace(s: string) {
    forall i :: 0 <= i < |s| ==> IsSpace(s[i])
  }

  lemma {:induction false} TrimLeftPadded(a: string, s: string)
    requires AllSpace(a)
    ensures TrimLeft(a + s) == TrimLeft(s)
  {
    if a == [] {
      assert a + s == s;
    } else {
      assert (a + s)[1..] == a[1..] + s;
      TrimLeftPadded(a[1..], s);
    }
  }

  lemma {:induction false} TrimRightPadded(s: string, b: string)
    requires AllSpace(b)
    ensures TrimRight(s + b) == TrimRight(s)
  {
    if b == [] {
      assert s + b == s;
    } else {
      assert (s + b)[..|s + b| - 1] == s + b[..|b| - 1];
      TrimRightPadded(s, b[..|b| - 1]);
    }
  }

  lemma {:induction false} TrimLeftThenPad(s: string, b: string)
    requires AllSpace(b)
    ensures TrimRight(TrimLeft(s + b)) == TrimRight(TrimLeft(s))
  {
    if s == [] {
      assert s + b == b && b + [] == b;
      TrimLeftPadded(b, []);
    } else if IsSpace(s[0]) {
      assert (s + b)[1..] == s[1..] + b;
      TrimLeftThenPad(s[1..], b);
    } else {
      TrimRightPadded(s, b);
    }
  }

  /** Whitespace around a component is ignored. */
  lemma PaddingIsIgnored(a: string, s: string, b: string)
    requires AllSpace(a) && AllSpace(b)
    ensures ParseComponent(a + s + b) == ParseComponent(s)
  {
    hide ParseComponent, TrimLeft, TrimRight, IsSpace;
    assert a + s + b == a + (s + b);
    TrimLeftPadded(a, s + b);
    TrimLeftThenPad(s, b);
    TrimDecides(a + s + b, s);
  }

  /** Only what trimming leaves of a component matters. */
  lemma TrimDecides(s: string, t: string)
    requires TrimSpace(s) == TrimSpace(t)
    ensures ParseComponent(s) == ParseComponent(t)
  {
    hide TrimSpace, SetString;
  }
}
