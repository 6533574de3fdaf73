/**
 Hierarchical deterministic wallet paths (l2geth/accounts/hd.go): the parser for user-written
 paths and the printer of their canonical form.

 The library calls of the parser are modelled too: splitting at slashes, trimming of Unicode
 white space, and the integer literals that base 0 admits (sign, prefixes 0x, 0b, 0o, leading 0
 for octal, underscores after a digit or prefix and before a digit).
 */
module DerivationPath {
  import opened Wrappers

  type Uint32 = x: int | 0 <= x < 0x1_0000_0000

  type Path = seq<Uint32>

  const HARDENED: Uint32 := 0x8000_0000

  const DEFAULT_ROOT: Path := [HARDENED + 44, HARDENED + 60, HARDENED, 0]

  datatype Error = EmptyPath | AmbiguousPath | InvalidComponent(text: string) | OutOfRange(value: int, hardened: bool)

  datatype Result<+T> = Ok(value: T) | Err(error: Error)

  // ---------- strings ----------

  /** The components of a string with `c` in front of one that has components `r`. */
  function Extend(c: char, r: seq<string>): (q: seq<string>)
    requires r != []
    ensures q != []
  {
    if c == '/' then [""] + r else [[c] + r[0]] + r[1..]
  }

  /** The components between the slashes; always at least one. */
  function Split(s: string): (r: seq<string>)
    ensures r != []
  {
    if s == [] then [""] else Extend(s[0], Split(s[1..]))
  }

  lemma ExtendConcat(c: char, r: seq<string>, q: seq<string>)
    requires r != []
    ensures Extend(c, r + q) == Extend(c, r) + q
  {
    assert (r + q)[0] == r[0] && (r + q)[1..] == r[1..] + q;
  }

  lemma {:induction false} SplitConcat(a: string, b: string)
    ensures Split(a + "/" + b) == Split(a) + Split(b)
  {
    if a == [] {
      assert a + "/" + b == "/" + b && ("/" + b)[1..] == b;
    } else {
      SplitConcat(a[1..], b);
      SplitFirst(a);
      SplitFirst(a + "/" + b);
      assert (a + "/" + b)[1..] == a[1..] + "/" + b && (a + "/" + b)[0] == a[0];
      ExtendConcat(a[0], Split(a[1..]), Split(b));
      hide Extend, Split;
    }
  }

  lemma SplitFirst(s: string)
    requires s != []
    ensures Split(s) == Extend(s[0], Split(s[1..]))
  {
  }

  lemma {:induction false} SplitWhole(s: string)
    requires '/' !in s
    ensures Split(s) == [s]
  {
    if s != [] {
      SplitWhole(s[1..]);
      assert s == [s[0]] + s[1..];
    }
  }

  predicate IsSpace(c: char) {
    || '\t' <= c <= '\r' || c == ' ' || c == '\U{85}' || c == '\U{A0}' || c == '\U{1680}'
    || '\U{2000}' <= c <= '\U{200A}'
    || c == '\U{2028}' || c == '\U{2029}' || c == '\U{202F}' || c == '\U{205F}' || c == '\U{3000}'
  }

  /** The 25 characters that count as white space. */
  lemma WhiteSpace(c: char)
    ensures IsSpace(c) <==>
            c in "\t\n\U{B}\U{C}\r \U{85}\U{A0}\U{1680}\U{2000}\U{2001}\U{2002}\U{2003}\U{2004}\U{2005}" +
                 "\U{2006}\U{2007}\U{2008}\U{2009}\U{200A}\U{2028}\U{2029}\U{202F}\U{205F}\U{3000}"
  {
  }

  function TrimLeft(s: string): string {
    if s != [] && IsSpace(s[0]) then TrimLeft(s[1..]) else s
  }

  function TrimRight(s: string): string {
    if s != [] && IsSpace(s[|s| - 1]) then TrimRight(s[..|s| - 1]) else s
  }

  function Trim(s: string): string {
    TrimRight(TrimLeft(s))
  }

  // ---------- integer literals ----------

  function DigitValue(c: char): nat {
    if '0' <= c <= '9' then (c - '0') as nat
    else if 'a' <= c <= 'z' then (c - 'a') as nat + 10
    else if 'A' <= c <= 'Z' then (c - 'A') as nat + 10
    else 63
  }

  /**
   The state of a scan: the value so far, whether a digit was seen, whether an underscore may follow, was
   misplaced, and the rest.
   */
  datatype Scan = Scan(value: nat, digits: bool, mayBreak: bool, pending: bool, misplaced: bool, rest: string)

  function WithBreak(st: Scan): Scan {
    st.(misplaced := st.misplaced || !st.mayBreak, mayBreak := false, pending := true)
  }

  function WithDigit(st: Scan, base: nat, c: char): Scan {
    st.(value := st.value * base + DigitValue(c), digits := true, mayBreak := true, pending := false)
  }

  function ScanDigits(s: string, base: nat, st: Scan): Scan {
    if s == [] then st.(rest := [])
    else if s[0] == '_' then ScanDigits(s[1..], base, WithBreak(st))
    else if DigitValue(s[0]) >= base then st.(rest := s)
    else ScanDigits(s[1..], base, WithDigit(st, base, s[0]))
  }

  function ScanFrom(s: string, base: nat, prefixed: bool): Option<nat> {
    var st := ScanDigits(s, base, Scan(0, false, prefixed, false, false, []));
    if st.rest == [] && st.digits && !st.misplaced && !st.pending then Some(st.value) else None
  }

  /** An unsigned literal: a leading 0 announces the base. */
  function ScanNat(s: string): Option<nat> {
    if |s| < 2 || s[0] != '0' then ScanFrom(s, 10, false)
    else if s[1] in "bB" then ScanFrom(s[2..], 2, true)
    else if s[1] in "oO" then ScanFrom(s[2..], 8, true)
    else if s[1] in "xX" then ScanFrom(s[2..], 16, true)
    else ScanFrom(s[1..], 8, true)
  }

  function ScanInt(s: string): Option<int> {
    if s == [] then None
    else if s[0] in "+-" then
      match ScanNat(s[1..])
      case None => None
      case Some(v) => Some(if s[0] == '-' then 0 - v else v)
    else ScanNat(s)
  }

  /** All characters are digits or underscores. */
  predicate Plausible(s: string, base: nat) {
    forall i :: 0 <= i < |s| ==> s[i] == '_' || DigitValue(s[i]) < base
  }

  /** An underscore follows no other one, and starts the digits only after a prefix. */
  predicate WellPlaced(s: string, prefixed: bool, i: nat)
    requires i < |s|
  {
    s[i] == '_' ==> if i == 0 then prefixed else s[i - 1] != '_'
  }

  /** How digits are written: underscores stand alone, between digits or after a prefix. */
  predicate Spelled(s: string, base: nat, prefixed: bool) {
    s != [] && s[|s| - 1] != '_' && Plausible(s, base) && forall i: nat | i < |s| :: WellPlaced(s, prefixed, i)
  }

  /** The number that digits stand for, underscores aside. */
  function ValueOf(s: string, base: nat): nat {
    if s == [] then 0
    else
      var front, last := s[..|s| - 1], s[|s| - 1];
      if last == '_' then ValueOf(front, base) else ValueOf(front, base) * base + DigitValue(last)
  }

  /** The effect of one more character on a scan. */
  function Next(st: Scan, base: nat, c: char): Scan {
    if st.rest != [] then st.(rest := st.rest + [c])
    else if c == '_' then WithBreak(st)
    else if DigitValue(c) >= base then st.(rest := [c])
    else WithDigit(st, base, c)
  }

  lemma {:induction false} ScanLast(s: string, c: char, base: nat, st: Scan)
    requires st.rest == []
    ensures ScanDigits(s + [c], base, st) == Next(ScanDigits(s, base, st), base, c)
    decreases |s|
  {
    if s == [] {
      assert s + [c] == [c] && [c][1..] == [];
    } else {
      assert (s + [c])[1..] == s[1..] + [c] && (s + [c])[0] == s[0];
      if s[0] == '_' {
        ScanLast(s[1..], c, base, WithBreak(st));
      } else if DigitValue(s[0]) < base {
        ScanLast(s[1..], c, base, WithDigit(st, base, s[0]));
      }
    }
  }

  /** What the scan knows after `s`. */
  lemma {:induction false} ScanState(s: string, base: nat, prefixed: bool)
    ensures var st := ScanDigits(s, base, Scan(0, false, prefixed, false, false, []));
            && (st.rest == [] <==> Plausible(s, base))
            && (st.rest == [] ==>
                  && st.value == ValueOf(s, base)
                  && (!st.misplaced <==> forall i: nat | i < |s| :: WellPlaced(s, prefixed, i))
                  && st.mayBreak == (if s == [] then prefixed else s[|s| - 1] != '_')
                  && st.pending == (s != [] && s[|s| - 1] == '_')
                  && (s != [] && s[|s| - 1] != '_' ==> st.digits))
  {
    hide ScanDigits, ValueOf, Plausible, WellPlaced, DigitValue;
    if s == [] {
      NothingScanned(base, Scan(0, false, prefixed, false, false, []));
    } else {
      var front, last := s[..|s| - 1], s[|s| - 1];
      assert s == front + [last];
      ScanState(front, base, prefixed);
      ScanLast(front, last, base, Scan(0, false, prefixed, false, false, []));
      OneMore(front, last, base, prefixed);
    }
  }

  lemma NothingScanned(base: nat, st: Scan)
    ensures ScanDigits([], base, st) == st.(rest := []) && Plausible([], base) && ValueOf([], base) == 0
  {
  }

  lemma OneMore(s: string, c: char, base: nat, prefixed: bool)
    ensures Plausible(s + [c], base) <==> Plausible(s, base) && (c == '_' || DigitValue(c) < base)
    ensures (forall i: nat | i < |s| + 1 :: WellPlaced(s + [c], prefixed, i)) <==>
            && (forall i: nat | i < |s| :: WellPlaced(s, prefixed, i))
            && (c == '_' ==> if s == [] then prefixed else s[|s| - 1] != '_')
    ensures ValueOf(s + [c], base) == if c == '_' then ValueOf(s, base) else ValueOf(s, base) * base + DigitValue(c)
  {
    var t := s + [c];
    assert t[..|s|] == s && t[|s|] == c;
    if Plausible(t, base) {
      assert forall i :: 0 <= i < |s| ==> s[i] == t[i];
    }
    assert forall i: nat | i < |s| :: WellPlaced(t, prefixed, i) <==> WellPlaced(s, prefixed, i);
    assert WellPlaced(t, prefixed, |s|) <==> (c == '_' ==> if s == [] then prefixed else s[|s| - 1] != '_');
  }

  /** Digits are read exactly if they are well spelled, as the number they stand for. */
  lemma ReadsSpelled(s: string, base: nat, prefixed: bool)
    ensures ScanFrom(s, base, prefixed) == if Spelled(s, base, prefixed) then Some(ValueOf(s, base)) else None
  {
    ScanState(s, base, prefixed);
    assert s == [] ==> !ScanDigits(s, base, Scan(0, false, prefixed, false, false, [])).digits;
    hide ScanDigits, ValueOf, Plausible, WellPlaced;
  }

  /** The base that a prefix announces. */
  lemma Prefixes(p: char, d: string)
    ensures p in "xX" ==> ScanNat("0" + [p] + d) == if Spelled(d, 16, true) then Some(ValueOf(d, 16)) else None
    ensures p in "oO" ==> ScanNat("0" + [p] + d) == if Spelled(d, 8, true) then Some(ValueOf(d, 8)) else None
    ensures p in "bB" ==> ScanNat("0" + [p] + d) == if Spelled(d, 2, true) then Some(ValueOf(d, 2)) else None
  {
    ReadsSpelled(d, 16, true);
    ReadsSpelled(d, 8, true);
    ReadsSpelled(d, 2, true);
    hide ScanFrom, Spelled, ValueOf;
    assert ("0" + [p] + d)[2..] == d;
  }

  /** Without a prefix letter a leading zero announces octal digits, anything else is decimal. */
  lemma Unprefixed(d: string)
    ensures d != [] && d[0] !in "bBoOxX" ==>
              ScanNat("0" + d) == if Spelled(d, 8, true) then Some(ValueOf(d, 8)) else None
    ensures d == "0" || (d != [] && d[0] != '0') ==>
              ScanNat(d) == if Spelled(d, 10, false) then Some(ValueOf(d, 10)) else None
  {
    ReadsSpelled(d, 8, true);
    ReadsSpelled(d, 10, false);
    hide ScanFrom, Spelled, ValueOf;
    assert ("0" + d)[1..] == d;
  }

  lemma Signs(d: string)
    ensures ScanInt("+" + d) == ScanNat(d)
    ensures ScanInt("-" + d) == if ScanNat(d) == None then None else Some(0 - ScanNat(d).value)
  {
    hide ScanNat;
    assert ("+" + d)[1..] == d && ("-" + d)[1..] == d;
  }

  /** Sixteen digits suffice for every base that a prefix announces. */
  lemma Digits(i: nat)
    requires i < 16
    ensures DigitValue("0123456789abcdef"[i]) == DigitValue("0123456789ABCDEF"[i]) == i
  {
  }

  // ---------- the parser ----------

  function ParseComponent(text: string): Result<Uint32> {
    var c := Trim(text);
    var hardened := c != [] && c[|c| - 1] == '\'';
    var number := if hardened then Trim(c[..|c| - 1]) else c;
    var offset := if hardened then HARDENED else 0;
    match ScanInt(number)
    case None => Err(InvalidComponent(number))
    case Some(v) => if v < 0 || v > 0xffff_ffff - offset then Err(OutOfRange(v, hardened)) else Ok(offset + v)
  }

  /** All components, or the first error among them. */
  function ParseAll(cs: seq<string>): (r: Result<Path>)
    ensures r.Ok? ==> |r.value| == |cs|
  {
    if cs == [] then Ok([]) else Append(ParseAll(cs[..|cs| - 1]), ParseComponent(cs[|cs| - 1]))
  }

  function Append(front: Result<Path>, last: Result<Uint32>): Result<Path> {
    if front.Err? then front else if last.Err? then Err(last.error) else Ok(front.value + [last.value])
  }

  lemma ParseAllAppend(cs: seq<string>, c: string)
    ensures ParseAll(cs + [c]) == Append(ParseAll(cs), ParseComponent(c))
  {
    assert (cs + [c])[..|cs|] == cs;
  }

  /** The parsed components below a root path. */
  function Below(root: Path, r: Result<Path>): Result<Path> {
    match r
    case Err(e) => Err(e)
    case Ok(path) => Ok(root + path)
  }

  /** Absolute paths start with "m"; all others hang below the default root. */
  function Parse(s: string): Result<Path> {
    var cs := Split(s);
    var first := Trim(cs[0]);
    if first == "" then Err(AmbiguousPath)
    else if first != "m" then Below(DEFAULT_ROOT, ParseAll(cs))
    else if |cs| == 1 then Err(EmptyPath)
    else Below([], ParseAll(cs[1..]))
  }

  method ParseDerivationPath(s: string) returns (r: Result<Path>)
    ensures r == Parse(s)
  {
    hide Split, Trim, ParseComponent;
    var result: Path := [];
    var cs := Split(s);
    var first := Trim(cs[0]);
    if first == "" {
      return Err(AmbiguousPath);
    } else if first == "m" {
      cs := cs[1..];
    } else {
      result := DEFAULT_ROOT;
    }
    if |cs| == 0 {
      return Err(EmptyPath);
    }
    ghost var root := result;
    for i := 0 to |cs|
      invariant ParseAll(cs[..i]).Ok? && result == root + ParseAll(cs[..i]).value
    {
      var value := ParseOne(cs[i]);
      assert cs[..i + 1][..i] == cs[..i];
      if value.Err? {
        ErrorStays(cs, i + 1);
        return Err(value.error);
      }
      result := result + [value.value];
    }
    assert cs[..|cs|] == cs;
    return Ok(result);
  }

  /** One round of the parser's loop. */
  method ParseOne(text: string) returns (r: Result<Uint32>)
    ensures r == ParseComponent(text)
  {
    var component := Trim(text);
    var value: Uint32 := 0;
    if component != [] && component[|component| - 1] == '\'' {
      value := HARDENED;
      component := Trim(component[..|component| - 1]);
    }
    var bigval := ScanInt(component);
    if bigval == None {
      return Err(InvalidComponent(component));
    }
    var max := 0xffff_ffff - value;
    if bigval.value < 0 || bigval.value > max {
      if value == 0 {
        return Err(OutOfRange(bigval.value, false));
      }
      return Err(OutOfRange(bigval.value, true));
    }
    return Ok(value + bigval.value);
  }

  lemma {:induction false} ErrorStays(cs: seq<string>, i: nat)
    requires i <= |cs| && ParseAll(cs[..i]).Err?
    ensures ParseAll(cs) == ParseAll(cs[..i])
    decreases |cs|
  {
    if i == |cs| {
      assert cs[..i] == cs;
    } else {
      assert cs[..|cs| - 1][..i] == cs[..i];
      ErrorStays(cs[..|cs| - 1], i);
    }
  }

  // ---------- the printer ----------

  function Decimal(n: nat): (s: string)
    ensures s != []
  {
    if n < 10 then [Digit(n)] else Decimal(n / 10) + [Digit(n % 10)]
  }

  function Digit(d: nat): (c: char)
    requires d < 10
    ensures '0' <= c <= '9' && DigitValue(c) == d
  {
    '0' + d as char
  }

  function PrintComponent(c: Uint32): string {
    if c >= HARDENED then Decimal(c - HARDENED) + "'" else Decimal(c)
  }

  function Print(path: Path): string {
    if path == [] then "m" else Print(path[..|path| - 1]) + "/" + PrintComponent(path[|path| - 1])
  }

  method ToString(path: Path) returns (s: string)
    ensures s == Print(path)
  {
    s := "m";
    for i := 0 to |path|
      invariant s == Print(path[..i])
    {
      var component := path[i];
      var hardened := false;
      if component >= HARDENED {
        component := component - HARDENED;
        hardened := true;
      }
      ghost var before := s;
      s := s + "/" + Decimal(component);
      if hardened {
        s := s + "'";
      }
      assert s == before + "/" + PrintComponent(path[i]);
      assert path[..i + 1][..i] == path[..i];
    }
    assert path[..|path|] == path;
  }

  // ---------- printing, then parsing ----------

  predicate AllDigits(s: string) {
    forall c :: c in s ==> '0' <= c <= '9'
  }

  lemma {:induction false} DecimalDigits(n: nat)
    ensures AllDigits(Decimal(n)) && (n > 0 ==> Decimal(n)[0] != '0')
  {
    if n >= 10 {
      DecimalDigits(n / 10);
      assert Decimal(n)[0] == Decimal(n / 10)[0];
    }
  }

  lemma {:induction false} ScanAppend(s: string, c: char, st: Scan)
    requires AllDigits(s) && '0' <= c <= '9' && st.rest == []
    ensures ScanDigits(s, 10, st).rest == []
    ensures ScanDigits(s + [c], 10, st) == WithDigit(ScanDigits(s, 10, st), 10, c)
  {
    if s == [] {
      assert s + [c] == [c] && [c][1..] == [];
    } else {
      var d := s[0];
      assert d in s && DigitValue(d) < 10;
      assert forall x :: x in s[1..] ==> x in s;
      assert (s + [c])[1..] == s[1..] + [c] && (s + [c])[0] == d;
      ScanAppend(s[1..], c, WithDigit(st, 10, d));
    }
  }

  lemma {:induction false} ScanDecimal(n: nat)
    ensures ScanDigits(Decimal(n), 10, Scan(0, false, false, false, false, [])) == Scan(n, true, true, false, false, [])
  {
    var start := Scan(0, false, false, false, false, []);
    if n < 10 {
      ScanAppend([], Digit(n), start);
      assert [] + [Digit(n)] == Decimal(n);
    } else {
      ScanDecimal(n / 10);
      DecimalDigits(n / 10);
      ScanAppend(Decimal(n / 10), Digit(n % 10), start);
    }
  }

  /** The decimal form of every number is a literal for it, never an octal one. */
  lemma DecimalIsLiteral(n: nat)
    ensures ScanInt(Decimal(n)) == Some(n)
  {
    DecimalDigits(n);
    ScanDecimal(n);
    assert Decimal(n)[0] in Decimal(n);
  }

  lemma {:induction false} NothingToTrim(s: string)
    requires s != [] && !IsSpace(s[0]) && !IsSpace(s[|s| - 1])
    ensures Trim(s) == s
  {
  }

  lemma ParsePrintComponent(c: Uint32)
    ensures ParseComponent(PrintComponent(c)) == Ok(c)
    ensures '/' !in PrintComponent(c)
  {
    hide ScanInt, Decimal, Trim;
    var n := if c >= HARDENED then c - HARDENED else c;
    DecimalDigits(n);
    DecimalIsLiteral(n);
    var s := Decimal(n);
    assert s[0] in s && s[|s| - 1] in s;
    NothingToTrim(s);
    NothingToTrim(PrintComponent(c));
    assert (s + "'")[..|s|] == s;
  }

  function Components(path: Path): seq<string> {
    if path == [] then [] else Components(path[..|path| - 1]) + [PrintComponent(path[|path| - 1])]
  }

  lemma {:induction false} SplitPrint(path: Path)
    ensures Split(Print(path)) == ["m"] + Components(path)
  {
    if path == [] {
      SplitWhole("m");
    } else {
      var front, last := path[..|path| - 1], path[|path| - 1];
      SplitPrint(front);
      ParsePrintComponent(last);
      SplitConcat(Print(front), PrintComponent(last));
      SplitWhole(PrintComponent(last));
      assert Print(path) == Print(front) + "/" + PrintComponent(last);
      hide *;
      assert (["m"] + Components(front)) + [PrintComponent(last)] ==
             ["m"] + (Components(front) + [PrintComponent(last)]);
    }
  }

  lemma {:induction false} ParseComponents(path: Path)
    ensures ParseAll(Components(path)) == Ok(path)
  {
    hide ParseAll, PrintComponent, ParseComponent;
    if path == [] {
      ParseNone();
    } else {
      var front, last := path[..|path| - 1], path[|path| - 1];
      ParseComponents(front);
      ParsePrintComponent(last);
      ParseAllAppend(Components(front), PrintComponent(last));
      assert path == front + [last];
    }
  }

  /** The printed form of a path parses back to it; only the empty path, printed as "m", is rejected. */
  lemma ParsePrint(path: Path)
    ensures Parse(Print(path)) == if path == [] then Err(EmptyPath) else Ok(path)
  {
    hide Split, Print, ParseAll;
    SplitPrint(path);
    ParseComponents(path);
    NothingToTrim("m");
    assert (["m"] + Components(path))[1..] == Components(path) && [] + path == path;
  }

  /** Different paths print differently. */
  lemma PrintInjective(p: Path, q: Path)
    requires Print(p) == Print(q)
    ensures p == q
  {
    ParsePrint(p);
    ParsePrint(q);
  }

  /** Printing what was parsed gives a canonical form: it means the same, and is its own canonical form. */
  lemma PrintParseCanonical(s: string)
    requires Parse(s).Ok?
    ensures Parse(Print(Parse(s).value)) == Parse(s)
    ensures Print(Parse(Print(Parse(s).value)).value) == Print(Parse(s).value)
  {
    ParsePrint(Parse(s).value);
  }

  // ---------- what the parser accepts ----------

  lemma {:induction false} ParseAllConcat(a: seq<string>, b: seq<string>)
    ensures ParseAll(a + b) == if ParseAll(a).Err? then ParseAll(a) else Below(ParseAll(a).value, ParseAll(b))
    decreases |b|
  {
    hide ParseAll, ParseComponent;
    if b == [] {
      ParseNone();
      assert a + b == a;
      assert forall p: Path :: p + [] == p;
    } else {
      var front, last := b[..|b| - 1], b[|b| - 1];
      ParseAllConcat(a, front);
      ParseAllAppend(a + front, last);
      ParseAllAppend(front, last);
      assert a + b == a + front + [last] && b == front + [last];
      assert forall p: Path, q: Path, v: Uint32 :: p + (q + [v]) == p + q + [v];
    }
  }

  lemma ParseNone()
    ensures ParseAll([]) == Ok([])
  {
  }

  lemma PrintedRoot()
    ensures Print(DEFAULT_ROOT) == "m/44'/60'/0'/0"
  {
    var p := DEFAULT_ROOT;
    assert p[..3][..2] == p[..2] && p[..2][..1] == p[..1] && p[..1][..0] == [];
    assert Decimal(44) == Decimal(4) + [Digit(4)] && Decimal(60) == Decimal(6) + [Digit(0)];
    assert Print(p[..1]) == "m/44'";
    assert Print(p[..2]) == "m/44'/60'";
    assert Print(p[..3]) == "m/44'/60'/0'";
  }

  /** A relative path means the default root path followed by it. */
  lemma RelativeToRoot(s: string)
    requires Trim(Split(s)[0]) != "" && Trim(Split(s)[0]) != "m"
    ensures Parse(s) == Parse(Print(DEFAULT_ROOT) + "/" + s) == Parse("m/44'/60'/0'/0" + "/" + s)
  {
    PrintedRoot();
    hide Split, Print, ParseAll, Trim;
    SplitConcat(Print(DEFAULT_ROOT), s);
    SplitPrint(DEFAULT_ROOT);
    ParseComponents(DEFAULT_ROOT);
    var root, cs := Components(DEFAULT_ROOT), Split(s);
    assert (["m"] + root + cs)[1..] == root + cs;
    ParseAllConcat(root, cs);
    NothingToTrim("m");
    assert forall p: Path :: [] + p == p;
  }

  lemma SameTrimmed(c: string, d: string)
    requires Trim(c) == Trim(d)
    ensures ParseComponent(c) == ParseComponent(d)
  {
  }

  lemma {:induction false} ParseAllTrimmed(cs: seq<string>, ds: seq<string>)
    requires |cs| == |ds| && forall i :: 0 <= i < |cs| ==> Trim(cs[i]) == Trim(ds[i])
    ensures ParseAll(cs) == ParseAll(ds)
  {
    hide ParseAll, ParseComponent, Trim;
    if cs == [] {
      assert cs == ds;
    } else {
      var n := |cs| - 1;
      ParseAllTrimmed(cs[..n], ds[..n]);
      ParseAllAppend(cs[..n], cs[n]);
      ParseAllAppend(ds[..n], ds[n]);
      SameTrimmed(cs[n], ds[n]);
      assert cs == cs[..n] + [cs[n]] && ds == ds[..n] + [ds[n]];
    }
  }

  /** White space around components is ignored. */
  lemma SpaceIgnored(s: string, t: string)
    requires |Split(s)| == |Split(t)| && forall i :: 0 <= i < |Split(s)| ==> Trim(Split(s)[i]) == Trim(Split(t)[i])
    ensures Parse(s) == Parse(t)
  {
    ParseAllTrimmed(Split(s), Split(t));
    ParseAllTrimmed(Split(s)[1..], Split(t)[1..]);
  }

  // ---------- white space inside components ----------

  /** The text without any white space. */
  function Strip(s: string): string {
    if s == [] then [] else (if IsSpace(s[0]) then [] else [s[0]]) + Strip(s[1..])
  }

  predicate Spaceless(s: string) {
    forall c :: c in s ==> !IsSpace(c)
  }

  lemma {:induction false} StripConcat(a: string, b: string)
    ensures Strip(a + b) == Strip(a) + Strip(b)
  {
    if a == [] {
      assert a + b == b;
    } else {
      StripConcat(a[1..], b);
      assert (a + b)[1..] == a[1..] + b && (a + b)[0] == a[0];
    }
  }

  lemma {:induction false} StripSpaceless(s: string)
    ensures Spaceless(Strip(s)) && (Strip(s) == s <==> Spaceless(s)) && |Strip(s)| <= |s|
  {
    if s != [] {
      StripSpaceless(s[1..]);
      assert s == [s[0]] + s[1..];
      if IsSpace(s[0]) {
        assert s[0] in s;
      } else {
        assert Strip(s)[1..] == Strip(s[1..]);
      }
    }
  }

  lemma {:induction false} StripTrimLeft(s: string)
    ensures Strip(TrimLeft(s)) == Strip(s)
  {
    if s != [] && IsSpace(s[0]) {
      StripTrimLeft(s[1..]);
    }
  }

  lemma {:induction false} StripTrimRight(s: string)
    ensures Strip(TrimRight(s)) == Strip(s)
  {
    if s != [] && IsSpace(s[|s| - 1]) {
      var front, last := s[..|s| - 1], s[|s| - 1];
      StripTrimRight(front);
      StripConcat(front, [last]);
      assert s == front + [last];
      assert Strip([last]) == [];
    }
  }

  lemma StripTrim(s: string)
    ensures Strip(Trim(s)) == Strip(s)
  {
    StripTrimLeft(s);
    StripTrimRight(TrimLeft(s));
  }

  lemma SpacelessTrim(s: string)
    requires Spaceless(s)
    ensures Trim(s) == s
  {
    if s != [] {
      assert s[0] in s && s[|s| - 1] in s;
      NothingToTrim(s);
    }
  }

  lemma {:induction false} TrimRightEnds(s: string)
    ensures TrimRight(s) != [] ==> !IsSpace(TrimRight(s)[|TrimRight(s)| - 1])
  {
    if s != [] && IsSpace(s[|s| - 1]) {
      TrimRightEnds(s[..|s| - 1]);
    }
  }

  /** Whether a component is marked as hardened, and the number it is left with. */
  predicate IsHardened(text: string) {
    var c := Trim(text);
    c != [] && c[|c| - 1] == '\''
  }

  function Number(text: string): string {
    var c := Trim(text);
    if IsHardened(text) then Trim(c[..|c| - 1]) else c
  }

  lemma ComponentByNumber(text: string, other: string)
    requires IsHardened(text) == IsHardened(other) && Number(text) == Number(other)
    ensures ParseComponent(text) == ParseComponent(other)
  {
  }

  lemma StripNumber(text: string)
    ensures IsHardened(Strip(text)) == IsHardened(text) && Number(Strip(text)) == Strip(Number(text))
  {
    hide TrimLeft, TrimRight, Strip;
    var c, d := Trim(text), Strip(text);
    StripTrim(text);
    StripSpaceless(text);
    SpacelessTrim(d);
    assert Strip(c) == d == Trim(d);
    TrimRightEnds(TrimLeft(text));
    if c == [] {
      NoStrip();
    } else {
      var front, last := c[..|c| - 1], c[|c| - 1];
      assert c == front + [last];
      StripConcat(front, [last]);
      StripOne(last);
      assert d == Strip(front) + [last];
      if last == '\'' {
        assert d[..|d| - 1] == Strip(front);
        StripTrim(front);
        StripSpaceless(front);
        SpacelessTrim(Strip(front));
      }
    }
  }

  lemma NoStrip()
    ensures Strip([]) == []
  {
  }

  lemma StripOne(c: char)
    ensures Strip([c]) == if IsSpace(c) then [] else [c]
  {
    assert [c][1..] == [];
  }

  lemma {:induction false} DigitsSpaceless(s: string, base: nat, st: Scan)
    requires base <= 36 && ScanDigits(s, base, st).rest == []
    ensures Spaceless(s)
  {
    hide WithBreak, WithDigit;
    if s != [] {
      assert s == [s[0]] + s[1..];
      if s[0] == '_' {
        DigitsSpaceless(s[1..], base, WithBreak(st));
      } else {
        DigitsSpaceless(s[1..], base, WithDigit(st, base, s[0]));
      }
    }
  }

  lemma LiteralSpaceless(s: string)
    requires ScanNat(s).Some?
    ensures Spaceless(s)
  {
    var start := (prefixed: bool) => Scan(0, false, prefixed, false, false, []);
    if |s| < 2 || s[0] != '0' {
      DigitsSpaceless(s, 10, start(false));
    } else if s[1] in "bB" {
      DigitsSpaceless(s[2..], 2, start(true));
      assert s == [s[0], s[1]] + s[2..];
    } else if s[1] in "oO" {
      DigitsSpaceless(s[2..], 8, start(true));
      assert s == [s[0], s[1]] + s[2..];
    } else if s[1] in "xX" {
      DigitsSpaceless(s[2..], 16, start(true));
      assert s == [s[0], s[1]] + s[2..];
    } else {
      DigitsSpaceless(s[1..], 8, start(true));
      assert s == [s[0]] + s[1..];
    }
  }

  /** No accepted number has white space in it. */
  lemma NumberSpaceless(s: string)
    requires ScanInt(s).Some?
    ensures Spaceless(s)
  {
    hide ScanNat;
    if s[0] in "+-" {
      LiteralSpaceless(s[1..]);
      assert s == [s[0]] + s[1..];
    } else {
      LiteralSpaceless(s);
    }
  }

  /**
   Of a component that is valid without its white space, all of it is ignored exactly when none is inside
   the number.
   */
  lemma InnerSpace(text: string)
    requires ParseComponent(Strip(text)).Ok?
    ensures ParseComponent(text) == ParseComponent(Strip(text)) <==> Spaceless(Number(text))
    ensures ParseComponent(text).Ok? <==> Spaceless(Number(text))
  {
    StripNumber(text);
    StripSpaceless(Number(text));
    if Spaceless(Number(text)) {
      ComponentByNumber(text, Strip(text));
    } else if ScanInt(Number(text)).Some? {
      NumberSpaceless(Number(text));
      assert false;
    }
  }

  /** White space inside a number is not ignored. */
  lemma InnerSpaceRejected()
    ensures ParseComponent("12") == Ok(12) && ParseComponent("1 2").Err?
    ensures Parse("m/12") == Ok([12]) && Parse("m/1 2").Err?
  {
    hide Parse, Split, ScanInt, Trim;
    assert Decimal(1) == "1" && Decimal(12) == "12";
    DecimalIsLiteral(12);
    NothingToTrim("12");
    NothingToTrim("1 2");
    assert "1 2"[1] in "1 2";
    if ScanInt("1 2").Some? {
      NumberSpaceless("1 2");
      assert false;
    }
    ParseUnderM("12");
    ParseUnderM("1 2");
    assert "m/" + "12" == "m/12" && "m/" + "1 2" == "m/1 2";
    assert [] + [12] == [12];
  }

  /** An absolute path of one component. */
  lemma ParseUnderM(c: string)
    requires '/' !in c
    ensures Parse("m/" + c) == Append(Ok([]), ParseComponent(c))
  {
    hide Split, ParseComponent, ParseAll;
    SplitConcat("m", c);
    SplitWhole("m");
    SplitWhole(c);
    NothingToTrim("m");
    assert "m/" == "m" + "/";
    ParseNone();
    ParseAllAppend([], c);
    assert [] + [c] == [c] && (["m"] + [c])[1..] == [c];
    assert forall p: Path :: [] + p == p;
  }

  function StripAll(cs: seq<string>): (r: seq<string>)
    ensures |r| == |cs| && forall i :: 0 <= i < |cs| ==> r[i] == Strip(cs[i])
  {
    seq(|cs|, i requires 0 <= i < |cs| => Strip(cs[i]))
  }

  lemma {:induction false} SplitStrip(s: string)
    ensures Split(Strip(s)) == StripAll(Split(s))
  {
    if s != [] {
      SplitStrip(s[1..]);
      SplitFirst(s);
      ExtendStrip(s[0], Split(s[1..]));
      if IsSpace(s[0]) {
        assert Strip(s) == Strip(s[1..]);
      } else {
        SplitFirst(Strip(s));
        assert Strip(s)[1..] == Strip(s[1..]) && Strip(s)[0] == s[0];
      }
    }
  }

  lemma ExtendStrip(c: char, r: seq<string>)
    requires r != []
    ensures StripAll(Extend(c, r)) == if IsSpace(c) then StripAll(r) else Extend(c, StripAll(r))
  {
    hide Strip;
    NoStrip();
    StripOne(c);
    StripConcat([c], r[0]);
    var q := Extend(c, r);
    assert forall i :: 0 < i < |r| ==> r[1..][i - 1] == r[i];
    if c == '/' {
      assert q[1..] == r;
      assert StripAll(q) == [""] + StripAll(r);
    } else {
      assert forall i :: 0 < i < |r| ==> q[i] == r[i];
      assert q[0] == [c] + r[0];
      assert StripAll(r)[1..] == StripAll(q)[1..];
      assert Strip(q[0]) == if IsSpace(c) then Strip(r[0]) else [c] + Strip(r[0]);
      assert StripAll(q) == [Strip(q[0])] + StripAll(q)[1..];
      assert StripAll(r) == [Strip(r[0])] + StripAll(r)[1..];
    }
  }

  /** No component has white space inside its number. */
  predicate AllSpaceless(cs: seq<string>) {
    forall i :: 0 <= i < |cs| ==> Spaceless(Number(cs[i]))
  }

  lemma SpacelessAppend(cs: seq<string>, c: string)
    ensures AllSpaceless(cs + [c]) <==> AllSpaceless(cs) && Spaceless(Number(c))
  {
    hide Number, Spaceless;
    var all := cs + [c];
    assert all[|cs|] == c && forall i :: 0 <= i < |cs| ==> all[i] == cs[i];
  }

  /** The components that are parsed: all but a leading "m". */
  function Parsed(s: string): seq<string> {
    var cs := Split(s);
    if Trim(cs[0]) == "m" then cs[1..] else cs
  }

  /**
   Of a path that is valid without its white space, all of it is ignored exactly when none is
   inside a number; otherwise the path is rejected.
   */
  lemma InnerSpaceInPath(s: string)
    requires Parse(Strip(s)).Ok?
    ensures Parse(s) == Parse(Strip(s)) <==> AllSpaceless(Parsed(s))
    ensures Parse(s).Ok? <==> AllSpaceless(Parsed(s))
  {
    SplitStrip(s);
    var first := Split(s)[0];
    FirstStripped(first);
    var cs := Parsed(s);
    assert Parsed(Strip(s)) == StripAll(cs);
    hide Split, ParseAll, Trim, Strip, Number;
    InnerSpaceInList(cs);
  }

  lemma FirstStripped(first: string)
    ensures Trim(first) == "" <==> Trim(Strip(first)) == ""
    ensures Trim(first) == "m" <==> Trim(Strip(first)) == "m"
  {
    hide Strip, Trim;
    StripTrim(first);
    StripSpaceless(first);
    SpacelessTrim(Strip(first));
    TrimEnds(first);
    NoStrip();
    var c := Trim(first);
    if |c| == 1 {
      StripOne(c[0]);
      assert c == [c[0]];
    } else if |c| > 1 {
      BothEndsStay(c);
    }
  }

  lemma BothEndsStay(c: string)
    requires |c| > 1 && !IsSpace(c[0]) && !IsSpace(c[|c| - 1])
    ensures |Strip(c)| >= 2
  {
    hide Strip;
    var front, last := c[..|c| - 1], c[|c| - 1];
    assert c == front + [last];
    StripConcat(front, [last]);
    StripOne(last);
    assert front == [front[0]] + front[1..];
    StripConcat([front[0]], front[1..]);
    StripOne(front[0]);
  }

  lemma TrimEnds(s: string)
    ensures Trim(s) != [] ==> !IsSpace(Trim(s)[0]) && !IsSpace(Trim(s)[|Trim(s)| - 1])
  {
    TrimRightEnds(TrimLeft(s));
    TrimLeftStarts(s);
    TrimRightPrefix(TrimLeft(s));
  }

  lemma {:induction false} TrimLeftStarts(s: string)
    ensures TrimLeft(s) != [] ==> !IsSpace(TrimLeft(s)[0])
  {
    if s != [] && IsSpace(s[0]) {
      TrimLeftStarts(s[1..]);
    }
  }

  lemma {:induction false} TrimRightPrefix(s: string)
    ensures TrimRight(s) <= s
  {
    if s != [] && IsSpace(s[|s| - 1]) {
      TrimRightPrefix(s[..|s| - 1]);
    }
  }

  lemma {:induction false} InnerSpaceInList(cs: seq<string>)
    requires ParseAll(StripAll(cs)).Ok?
    ensures ParseAll(cs) == ParseAll(StripAll(cs)) <==> AllSpaceless(cs)
    ensures ParseAll(cs).Ok? <==> AllSpaceless(cs)
  {
    hide ParseAll, ParseComponent, Number, Strip, StripAll, AllSpaceless, Spaceless, Append;
    if cs == [] {
      NoComponents();
    } else {
      var front, last := cs[..|cs| - 1], cs[|cs| - 1];
      assert cs == front + [last];
      StripAllAppend(front, last);
      ParseAllAppend(front, last);
      ParseAllAppend(StripAll(front), Strip(last));
      AppendSame(ParseAll(front), ParseComponent(last), ParseAll(StripAll(front)), ParseComponent(Strip(last)));
      InnerSpaceInList(front);
      InnerSpace(last);
      SpacelessAppend(front, last);
    }
  }

  lemma NoComponents()
    ensures StripAll([]) == [] && AllSpaceless([]) && ParseAll([]).Ok?
  {
  }

  lemma StripAllAppend(cs: seq<string>, c: string)
    ensures StripAll(cs + [c]) == StripAll(cs) + [Strip(c)]
  {
    hide Strip;
  }

  lemma AppendSame(p: Result<Path>, c: Result<Uint32>, q: Result<Path>, d: Result<Uint32>)
    ensures Append(p, c).Ok? <==> p.Ok? && c.Ok?
    ensures Append(q, d).Ok? <==> q.Ok? && d.Ok?
    ensures Append(q, d).Ok? ==> (Append(p, c) == Append(q, d) <==> p == q && c == d)
  {
    if Append(q, d).Ok? && Append(p, c) == Append(q, d) {
      var x, y := p.value + [c.value], q.value + [d.value];
      assert p.value == x[..|x| - 1] && q.value == y[..|y| - 1];
      assert c.value == x[|x| - 1] && d.value == y[|y| - 1];
    }
  }

  /** A hardened component and the number from 2^31 on that it stands for are interchangeable. */
  lemma HardenedOffset(n: nat)
    requires n < 0x8000_0000
    ensures ParseComponent(Decimal(n) + "'") == ParseComponent(Decimal(0x8000_0000 + n)) == Ok(0x8000_0000 + n)
  {
    hide ScanInt, Decimal, Trim;
    ParsePrintComponent(HARDENED + n);
    DecimalDigits(HARDENED + n);
    DecimalIsLiteral(HARDENED + n);
    var s := Decimal(HARDENED + n);
    assert s[0] in s && s[|s| - 1] in s;
    NothingToTrim(s);
  }
}
