/**
 Hierarchical-deterministic derivation paths: parsing user input and printing the canonical form, in
 the notation of BIP-32 and BIP-44.  A component at or above 2^31 is hardened and prints with an
 apostrophe.
 */
module DerivationPath {
  import opened Options

  type uint32 = x: nat | x < 0x1_0000_0000

  const HARDENED: nat := 0x8000_0000
  const MAX_UINT32: nat := 0xFFFF_FFFF

  const DEFAULT_ROOT: seq<uint32> := [HARDENED + 44, HARDENED + 60, HARDENED, 0]

  // ----- the string library -----

  predicate IsSpace(c: char) {
    || '\t' <= c <= '\r' || c == ' ' || c == '\U{85}' || c == '\U{A0}' || c == '\U{1680}'
    || '\U{2000}' <= c <= '\U{200A}' || c == '\U{2028}' || c == '\U{2029}' || c == '\U{202F}'
    || c == '\U{205F}' || c == '\U{3000}'
  }

  function TrimLeft(s: string): string {
    if s != "" && IsSpace(s[0]) then TrimLeft(s[1..]) else s
  }

  function TrimRight(s: string): string {
    if s != "" && IsSpace(s[|s| - 1]) then TrimRight(s[..|s| - 1]) else s
  }

  function TrimSpace(s: string): string { TrimRight(TrimLeft(s)) }

  /** Splits at every slash; never yields an empty list. */
  function Split(s: string): (r: seq<string>)
    ensures r != []
  {
    if s == "" then [""]
    else if s[0] == '/' then [""] + Split(s[1..])
    else var r := Split(s[1..]); [[s[0]] + r[0]] + r[1..]
  }

  function DigitValue(c: char): nat {
    if '0' <= c <= '9' then c as int - '0' as int
    else if 'a' <= c <= 'z' then c as int - 'a' as int + 10
    else if 'A' <= c <= 'Z' then c as int - 'A' as int + 10
    else 63
  }

  /** Reads all of `s` as digits of a base; single underscores may separate digits.  `afterDigit` says
      whether a digit or a base prefix came directly before. */
  function Digits(s: string, base: nat, afterDigit: bool, acc: nat, count: nat): Option<nat> {
    if s == "" then if count == 0 || !afterDigit then None else Some(acc)
    else if s[0] == '_' then if afterDigit then Digits(s[1..], base, false, acc, count) else None
    else if DigitValue(s[0]) < base then Digits(s[1..], base, true, acc * base + DigitValue(s[0]), count + 1)
    else None
  }

  /** Reads a natural number whose prefix chooses the base: 0b, 0o, 0x, a leading 0 for octal. */
  function ParseNat(s: string): Option<nat> {
    if s == "" || s[0] != '0' then Digits(s, 10, false, 0, 0)
    else if |s| == 1 then Some(0)
    else if s[1] == 'b' || s[1] == 'B' then Digits(s[2..], 2, true, 0, 0)
    else if s[1] == 'o' || s[1] == 'O' then Digits(s[2..], 8, true, 0, 0)
    else if s[1] == 'x' || s[1] == 'X' then Digits(s[2..], 16, true, 0, 0)
    else Digits(s[1..], 8, true, 0, 0)
  }

  /** Reads a big integer with an optional sign. */
  function ParseBig(s: string): Option<int> {
    if s != "" && (s[0] == '-' || s[0] == '+') then
      match ParseNat(s[1..])
      case Some(n) => Some(if s[0] == '-' then 0 - n else n)
      case None => None
    else
      match ParseNat(s)
      case Some(n) => Some(n)
      case None => None
  }

  function Digit(d: nat): char
    requires d < 10
  {
    '0' + d as char
  }

  function Decimal(n: nat): string {
    if n < 10 then [Digit(n)] else Decimal(n / 10) + [Digit(n % 10)]
  }

  // ----- parsing and printing -----

  function ParseComponent(component: string): Option<uint32> {
    var c := TrimSpace(component);
    var hardened := c != "" && c[|c| - 1] == '\'';
    var value := if hardened then HARDENED else 0;
    var digits := if hardened then TrimSpace(c[..|c| - 1]) else c;
    match ParseBig(digits)
    case Some(n) => if 0 <= n <= MAX_UINT32 - value then Some(value + n) else None
    case None => None
  }

  ghost function ParseAll(components: seq<string>): Option<seq<uint32>> {
    if components == [] then Some([])
    else match ParseComponent(components[0])
      case None => None
      case Some(v) =>
        match ParseAll(components[1..])
        case None => None
        case Some(rest) => Some([v] + rest)
  }

  /** What a path string means: absolute after "m", otherwise relative to the default root. */
  ghost function Meaning(path: string): Option<seq<uint32>> {
    var components := Split(path);
    var first := TrimSpace(components[0]);
    if first == "" then None
    else if first == "m" then if |components| == 1 then None else ParseAll(components[1..])
    else match ParseAll(components)
      case None => None
      case Some(rest) => Some(DEFAULT_ROOT + rest)
  }

  method ParseDerivationPath(path: string) returns (r: Option<seq<uint32>>)
    ensures r == Meaning(path)
    ensures r.Some? ==> r.value != []
  {
    var result: seq<uint32> := [];
    var components := Split(path);
    if TrimSpace(components[0]) == "" { return None; }
    if TrimSpace(components[0]) == "m" {
      components := components[1..];
    } else {
      result := DEFAULT_ROOT;
    }
    if |components| == 0 { return None; }
    var rest := ParseComponents(components);
    if rest.None? { return None; }
    AllNonEmpty(components);
    assert [] + rest.value == rest.value;
    return Some(result + rest.value);
  }

  /** Parses component by component, stopping at the first invalid one. */
  method ParseComponents(components: seq<string>) returns (r: Option<seq<uint32>>)
    ensures r == ParseAll(components)
  {
    var result: seq<uint32> := [];
    assert components[0..] == components && Prepend([], ParseAll(components)) == ParseAll(components) by {
      if ParseAll(components).Some? { assert [] + ParseAll(components).value == ParseAll(components).value; }
    }
    for i := 0 to |components|
      invariant ParseAll(components) == Prepend(result, ParseAll(components[i..]))
    {
      var value := ParseComponent(components[i]);
      PrependStep(result, components, i);
      if value.None? { return None; }
      result := result + [value.value];
    }
    assert components[|components|..] == [] && result + [] == result;
    return Some(result);
  }

  ghost function Prepend(head: seq<uint32>, tail: Option<seq<uint32>>): Option<seq<uint32>> {
    match tail
    case None => None
    case Some(t) => Some(head + t)
  }

  lemma PrependStep(head: seq<uint32>, components: seq<string>, i: nat)
    requires i < |components|
    ensures ParseComponent(components[i]).None? ==> Prepend(head, ParseAll(components[i..])).None?
    ensures ParseComponent(components[i]).Some? ==>
      Prepend(head, ParseAll(components[i..])) == Prepend(head + [ParseComponent(components[i]).value], ParseAll(components[i + 1..]))
  {
    assert components[i..][1..] == components[i + 1..];
    var v, t := ParseComponent(components[i]), ParseAll(components[i + 1..]);
    if v.Some? && t.Some? { assert head + ([v.value] + t.value) == head + [v.value] + t.value; }
  }

  function PrintComponent(c: uint32): string {
    if c >= HARDENED then Decimal(c - HARDENED) + "'" else Decimal(c)
  }

  ghost function Body(path: seq<uint32>): string {
    if path == [] then "" else "/" + PrintComponent(path[0]) + Body(path[1..])
  }

  /** The canonical text of a path. */
  ghost function Canonical(path: seq<uint32>): string { "m" + Body(path) }

  method Print(path: seq<uint32>) returns (result: string)
    ensures result == Canonical(path)
  {
    result := "m";
    for i := 0 to |path|
      invariant result == "m" + Body(path[..i])
    {
      var component: nat, hardened := path[i], false;
      if component >= HARDENED { component, hardened := component - HARDENED, true; }
      var text := Decimal(component);
      if hardened { text := text + "'"; }
      BodySnoc(path[..i], path[i]);
      Glue(Body(path[..i]), text);
      result := result + "/" + text;
      assert path[..i + 1] == path[..i] + [path[i]];
    }
    assert path[..|path|] == path;
  }

  // ----- round trips -----

  /** Parsing the canonical text of a path gives the path back, exactly for the non-empty ones. */
  lemma RoundTrip(path: seq<uint32>)
    ensures Meaning(Canonical(path)) == if path == [] then None else Some(path)
  {
    SplitBody("m", path);
    if path != [] { ParseTexts(path); }
  }

  /** Whatever spelling was parsed, its canonical text means the same path. */
  lemma CanonicalKeepsMeaning(text: string)
    requires Meaning(text).Some?
    ensures Meaning(Canonical(Meaning(text).value)) == Meaning(text)
  {
    MeaningNonEmpty(text);
    RoundTrip(Meaning(text).value);
  }

  /** Different paths print differently. */
  lemma CanonicalInjective(p: seq<uint32>, q: seq<uint32>)
    requires p != [] && q != [] && Canonical(p) == Canonical(q)
    ensures p == q
  {
    RoundTrip(p);
    RoundTrip(q);
  }

  // ----- what the notation means -----

  /** A relative path means the same as behind the default root. */
  lemma RelativeIsDefault(text: string)
    requires TrimSpace(Split(text)[0]) != "" && TrimSpace(Split(text)[0]) != "m"
    ensures Meaning(text) == Meaning("m/44'/60'/0'/0/" + text)
  {
    RootText();
    AbsoluteMeans(DEFAULT_ROOT, text);
  }

  /** What follows a printed path and a slash is appended to it. */
  lemma {:induction false} AbsoluteMeans(path: seq<uint32>, text: string)
    ensures Meaning(Canonical(path) + "/" + text) == Prepend(path, ParseAll(Split(text)))
  {
    SplitBodyThen("m", path, text);
    NoTrim("m");
    var components := ["m"] + Texts(path) + Split(text);
    assert components[1..] == Texts(path) + Split(text) && components[0] == "m" && |components| > 1;
    ParseTextsThen(path, Split(text));
  }

  lemma {:induction false} RootText()
    ensures Canonical(DEFAULT_ROOT) + "/" == "m/44'/60'/0'/0/"
  {
    RootTexts();
    BodyOf(0, []);
    BodyOf(HARDENED, [0]);
    BodyOf(HARDENED + 60, [HARDENED, 0]);
    BodyOf(HARDENED + 44, [HARDENED + 60, HARDENED, 0]);
    assert [HARDENED] + [0] == [HARDENED, 0];
    assert [HARDENED + 60] + [HARDENED, 0] == [HARDENED + 60, HARDENED, 0];
    assert [HARDENED + 44] + [HARDENED + 60, HARDENED, 0] == DEFAULT_ROOT;
  }

  lemma RootTexts()
    ensures PrintComponent(0) == "0" && PrintComponent(HARDENED) == "0'"
    ensures PrintComponent(HARDENED + 60) == "60'" && PrintComponent(HARDENED + 44) == "44'"
  {
    assert Decimal(44) == "44" && Decimal(60) == "60";
  }

  lemma {:induction false} BodyOf(c: uint32, rest: seq<uint32>)
    ensures Body([c] + rest) == "/" + PrintComponent(c) + Body(rest)
  {
    assert ([c] + rest)[1..] == rest;
  }

  /** Splitting printed text in front of other text. */
  lemma {:induction false} SplitBodyThen(word: string, path: seq<uint32>, text: string)
    requires '/' !in word
    ensures Split(word + Body(path) + "/" + text) == [word] + Texts(path) + Split(text)
    decreases |path|
  {
    if path == [] {
      assert word + "" == word;
      SplitWord(word, text);
    } else {
      var first := PrintComponent(path[0]);
      var rest := first + Body(path[1..]) + "/" + text;
      ComponentShape(path[0]);
      SplitBodyThen(first, path[1..], text);
      SplitWord(word, rest);
      Regroup(word, first, Body(path[1..]), text);
      RegroupLists([word], [first], Texts(path[1..]), Split(text));
    }
  }

  lemma Regroup(word: string, first: string, body: string, text: string)
    ensures word + ("/" + first + body) + "/" + text == word + "/" + (first + body + "/" + text)
  {
  }

  lemma RegroupLists<T>(a: seq<T>, b: seq<T>, c: seq<T>, d: seq<T>)
    ensures a + (b + c) + d == a + (b + c + d)
  {
  }

  lemma PrependOne(c: uint32, tail: seq<uint32>, r: Option<seq<uint32>>)
    ensures Prepend([c], Prepend(tail, r)) == Prepend([c] + tail, r)
  {
    if r.Some? { assert [c] + (tail + r.value) == [c] + tail + r.value; }
  }

  lemma {:induction false} ParseTextsThen(path: seq<uint32>, rest: seq<string>)
    ensures ParseAll(Texts(path) + rest) == Prepend(path, ParseAll(rest))
    decreases |path|
  {
    if path == [] {
      assert Texts(path) + rest == rest;
      if ParseAll(rest).Some? { assert [] + ParseAll(rest).value == ParseAll(rest).value; }
    } else {
      var first, others := PrintComponent(path[0]), Texts(path[1..]) + rest;
      ParsePrinted(path[0]);
      ParseTextsThen(path[1..], rest);
      FirstOf(first, Texts(path[1..]), rest);
      ParseFirst(first, [first] + others, path[0]);
      PrependOne(path[0], path[1..], ParseAll(rest));
      assert [path[0]] + path[1..] == path;
    }
  }

  lemma FirstOf(first: string, others: seq<string>, rest: seq<string>)
    ensures [first] + others + rest == [first] + (others + rest)
    ensures ([first] + (others + rest))[1..] == others + rest
  {
  }

  lemma {:induction false} ParseFirst(text: string, components: seq<string>, c: uint32)
    requires components != [] && components[0] == text && ParseComponent(text) == Some(c)
    ensures ParseAll(components) == Prepend([c], ParseAll(components[1..]))
  {
  }

  predicate DigitIs(c: char, d: nat) {
    || (d < 10 && c == '0' + d as char)
    || (10 <= d < 16 && (c == 'a' + (d - 10) as char || c == 'A' + (d - 10) as char))
  }

  /** `cs` writes the digits `ds` of a base. */
  predicate Spells(cs: string, ds: seq<nat>, base: nat) {
    |cs| == |ds| > 0 && forall i :: 0 <= i < |ds| ==> ds[i] < base && DigitIs(cs[i], ds[i])
  }

  /** The number with these digits, the last one counting once. */
  function Value(ds: seq<nat>, base: nat): nat {
    if ds == [] then 0 else Value(ds[..|ds| - 1], base) * base + ds[|ds| - 1]
  }

  /** Which prefix goes with which base; a decimal number does not start with a zero unless it is zero. */
  predicate Prefixes(prefix: string, ds: seq<nat>, base: nat)
    requires ds != []
  {
    || (base == 10 && prefix == "" && (ds[0] != 0 || |ds| == 1))
    || (base == 16 && (prefix == "0x" || prefix == "0X"))
    || (base == 2 && (prefix == "0b" || prefix == "0B"))
    || (base == 8 && (prefix == "0o" || prefix == "0O" || prefix == "0"))
  }

  /** Reading digits in front of any other text accumulates their value. */
  lemma {:induction false} DigitsRead(cs: string, ds: seq<nat>, base: nat, rest: string, afterDigit: bool)
    requires Spells(cs, ds, base) && base <= 16
    ensures Digits(cs + rest, base, afterDigit, 0, 0) == Digits(rest, base, true, Value(ds, base), |ds|)
    decreases |ds|
  {
    var n := |ds| - 1;
    var tail := [cs[n]] + rest;
    assert cs + rest == cs[..n] + tail && tail[1..] == rest && DigitIs(cs[n], ds[n]);
    if n == 0 {
      assert cs[..n] + tail == tail && ds[..0] == [] && Value(ds, base) == ds[0];
    } else {
      assert Spells(cs[..n], ds[..n], base) by {
        forall i | 0 <= i < n ensures ds[..n][i] < base && DigitIs(cs[..n][i], ds[..n][i]) { assert DigitIs(cs[i], ds[i]); }
      }
      DigitsRead(cs[..n], ds[..n], base, tail, afterDigit);
    }
  }

  /** A single underscore between digits changes nothing. */
  lemma UnderscoreBetween(cs: string, ds: seq<nat>, base: nat, rest: string, afterDigit: bool)
    requires Spells(cs, ds, base) && base <= 16 && rest != "" && rest[0] != '_'
    ensures Digits(cs + ("_" + rest), base, afterDigit, 0, 0) == Digits(cs + rest, base, afterDigit, 0, 0)
  {
    DigitsRead(cs, ds, base, "_" + rest, afterDigit);
    DigitsRead(cs, ds, base, rest, afterDigit);
    assert ("_" + rest)[1..] == rest;
  }

  predicate IsDigitOf(c: char, base: nat) { exists d: nat :: d < base && DigitIs(c, d) }

  /** Nothing but digits of the base and underscores is read as a number. */
  lemma {:induction false} OnlyDigits(s: string, base: nat, afterDigit: bool, acc: nat, count: nat)
    requires Digits(s, base, afterDigit, acc, count).Some? && base <= 16
    ensures forall i :: 0 <= i < |s| ==> s[i] == '_' || IsDigitOf(s[i], base)
    decreases |s|
  {
    if s != "" {
      if s[0] == '_' {
        OnlyDigits(s[1..], base, false, acc, count);
      } else {
        OnlyDigits(s[1..], base, true, acc * base + DigitValue(s[0]), count + 1);
        assert DigitIs(s[0], DigitValue(s[0]));
      }
      forall i | 0 <= i < |s| ensures s[i] == '_' || IsDigitOf(s[i], base) {
        if i > 0 { assert s[i] == s[1..][i - 1]; }
      }
    }
  }

  lemma NumberRead(prefix: string, cs: string, ds: seq<nat>, base: nat)
    requires Spells(cs, ds, base) && Prefixes(prefix, ds, base)
    ensures ParseNat(prefix + cs) == Some(Value(ds, base))
  {
    var text := prefix + cs;
    DigitsRead(cs, ds, base, "", prefix != "");
    assert cs + "" == cs && DigitIs(cs[0], ds[0]);
    if base == 10 {
      assert text == cs;
      if ds[0] == 0 { assert cs == "0" && ds[..0] == [] && Value(ds, 10) == 0; }
    } else {
      assert text[|prefix|..] == cs;
    }
  }

  predicate Spaces(s: string) { forall i :: 0 <= i < |s| ==> IsSpace(s[i]) }

  predicate Solid(s: string) { s != "" && !IsSpace(s[0]) && !IsSpace(s[|s| - 1]) }

  lemma {:induction false} TrimsLeft(left: string, s: string)
    requires Spaces(left) && (s == "" || !IsSpace(s[0]))
    ensures TrimLeft(left + s) == s
    decreases |left|
  {
    if left == "" {
      assert left + s == s;
    } else {
      assert (left + s)[1..] == left[1..] + s;
      TrimsLeft(left[1..], s);
    }
  }

  lemma {:induction false} TrimsRight(s: string, right: string)
    requires Spaces(right) && (s == "" || !IsSpace(s[|s| - 1]))
    ensures TrimRight(s + right) == s
    decreases |right|
  {
    if right == "" {
      assert s + right == s;
    } else {
      var n := |right| - 1;
      assert (s + right)[..|s| + n] == s + right[..n] && (s + right)[|s + right| - 1] == right[n];
      TrimsRight(s, right[..n]);
    }
  }

  lemma TrimsAround(left: string, core: string, right: string)
    requires Spaces(left) && Spaces(right) && Solid(core)
    ensures TrimSpace(left + core + right) == core
  {
    assert left + core + right == left + (core + right);
    TrimsLeft(left, core + right);
    TrimsRight(core, right);
  }

  /** One component, with any spaces around the number and its apostrophe, any sign, base and digits: the
      number, plus 2^31 if hardened, provided it is not negative and the sum has 32 bits. */
  lemma ComponentMeans(left: string, sign: string, prefix: string, cs: string, ds: seq<nat>, base: nat,
                       mid: string, hardened: bool, right: string)
    requires Spaces(left) && Spaces(mid) && Spaces(right) && (sign == "" || sign == "+" || sign == "-")
    requires Spells(cs, ds, base) && Prefixes(prefix, ds, base)
    ensures ParseComponent(left + (sign + (prefix + cs)) + mid + (if hardened then "'" else "") + right)
         == InRange(if sign == "-" then 0 - Value(ds, base) else Value(ds, base), hardened)
  {
    var number := sign + (prefix + cs);
    NumberIs(sign, prefix, cs, ds, base);
    if hardened { HardenedRead(left, number, mid, right); } else { PlainRead(left, number, mid, right); }
  }

  /** A number as a component, if it fits. */
  function InRange(n: int, hardened: bool): Option<uint32> {
    if hardened then if 0 <= n <= 0x7FFF_FFFF then Some(0x8000_0000 + n) else None
    else if 0 <= n <= 0xFFFF_FFFF then Some(n) else None
  }

  lemma NumberIs(sign: string, prefix: string, cs: string, ds: seq<nat>, base: nat)
    requires sign == "" || sign == "+" || sign == "-"
    requires Spells(cs, ds, base) && Prefixes(prefix, ds, base)
    ensures var number := sign + (prefix + cs);
      && Solid(number) && number[|number| - 1] != '\''
      && ParseBig(number) == Some(if sign == "-" then 0 - Value(ds, base) else Value(ds, base))
  {
    SolidNumber(sign, prefix, cs, ds, base);
    NumberRead(prefix, cs, ds, base);
    var text, n := prefix + cs, Value(ds, base);
    assert ParseNat(text) == Some(n) && text != "";
    SignRead(sign, text);
  }

  lemma HardenedRead(left: string, number: string, mid: string, right: string)
    requires Spaces(left) && Spaces(mid) && Spaces(right) && Solid(number) && ParseBig(number).Some?
    ensures ParseComponent(left + number + mid + "'" + right)
         == InRange(ParseBig(number).value, true)
  {
    var core := number + mid + "'";
    assert left + number + mid + "'" + right == left + core + right;
    assert core[0] == number[0] && core[|core| - 1] == '\'';
    TrimsAround(left, core, right);
    assert core[..|core| - 1] == "" + number + mid;
    TrimsAround("", number, mid);
  }

  lemma PlainRead(left: string, number: string, mid: string, right: string)
    requires Spaces(left) && Spaces(mid) && Spaces(right) && Solid(number) && ParseBig(number).Some?
    requires number[|number| - 1] != '\''
    ensures ParseComponent(left + number + mid + "" + right)
         == InRange(ParseBig(number).value, false)
  {
    assert left + number + mid + "" + right == left + number + (mid + right);
    TrimsAround(left, number, mid + right);
  }

  lemma SolidNumber(sign: string, prefix: string, cs: string, ds: seq<nat>, base: nat)
    requires sign == "" || sign == "+" || sign == "-"
    requires Spells(cs, ds, base) && Prefixes(prefix, ds, base)
    ensures var number := sign + (prefix + cs); Solid(number) && number[|number| - 1] != '\''
    ensures prefix + cs != "" && (prefix + cs)[0] != '-' && (prefix + cs)[0] != '+'
  {
    var number := sign + (prefix + cs);
    assert DigitIs(cs[0], ds[0]) && DigitIs(cs[|cs| - 1], ds[|ds| - 1]);
    assert number[|number| - 1] == cs[|cs| - 1];
    assert number[0] == if sign != "" then sign[0] else if prefix != "" then prefix[0] else cs[0];
  }

  lemma SignRead(sign: string, text: string)
    requires sign == "" || sign == "+" || sign == "-"
    requires text != "" && text[0] != '-' && text[0] != '+' && ParseNat(text).Some?
    ensures ParseBig(sign + text) == Some(if sign == "-" then 0 - ParseNat(text).value else ParseNat(text).value)
  {
    if sign == "" { assert sign + text == text; } else { assert (sign + text)[1..] == text; }
  }

  // ----- lemmas -----

  lemma {:induction false} BodySnoc(path: seq<uint32>, c: uint32)
    ensures Body(path + [c]) == Body(path) + "/" + PrintComponent(c)
    decreases |path|
  {
    if path == [] {
      assert path + [c] == [c] && [c][1..] == [];
    } else {
      assert (path + [c])[1..] == path[1..] + [c];
      BodySnoc(path[1..], c);
    }
  }

  lemma Glue(body: string, text: string)
    ensures "m" + body + "/" + text == "m" + (body + "/" + text)
  {
  }

  lemma {:induction false} AllNonEmpty(components: seq<string>)
    requires ParseAll(components).Some?
    ensures |ParseAll(components).value| == |components|
    decreases |components|
  {
    if components != [] { AllNonEmpty(components[1..]); }
  }

  lemma MeaningNonEmpty(text: string)
    requires Meaning(text).Some?
    ensures Meaning(text).value != []
  {
    var components := Split(text);
    if TrimSpace(components[0]) == "m" { AllNonEmpty(components[1..]); }
  }

  lemma {:induction false} SplitWord(word: string, rest: string)
    requires '/' !in word
    ensures Split(word) == [word]
    ensures Split(word + "/" + rest) == [word] + Split(rest)
    decreases |word|
  {
    if word == "" {
      assert "" + "/" + rest == "/" + rest && ("/" + rest)[1..] == rest;
    } else {
      var text := word + "/" + rest;
      assert text[1..] == word[1..] + "/" + rest && text[0] == word[0];
      SplitWord(word[1..], rest);
      assert word == [word[0]] + word[1..];
    }
  }

  ghost function Texts(path: seq<uint32>): seq<string> {
    if path == [] then [] else [PrintComponent(path[0])] + Texts(path[1..])
  }

  /** Splitting the printed text gives back the printed components. */
  lemma {:induction false} SplitBody(word: string, path: seq<uint32>)
    requires '/' !in word
    ensures Split(word + Body(path)) == [word] + Texts(path)
    decreases |path|
  {
    if path == [] {
      assert word + "" == word;
      SplitWord(word, "");
    } else {
      var text := PrintComponent(path[0]);
      ComponentShape(path[0]);
      SplitBody(text, path[1..]);
      SplitWord(word, text + Body(path[1..]));
      assert word + Body(path) == word + "/" + (text + Body(path[1..]));
    }
  }

  predicate IsDigit(c: char) { '0' <= c <= '9' }

  lemma {:induction false} DecimalShape(n: nat)
    ensures Decimal(n) != "" && forall i :: 0 <= i < |Decimal(n)| ==> IsDigit(Decimal(n)[i])
    ensures Decimal(n)[0] == '0' <==> n == 0
    ensures n == 0 ==> Decimal(n) == "0"
    decreases n
  {
    if n >= 10 { DecimalShape(n / 10); }
  }

  lemma ComponentShape(c: uint32)
    ensures '/' !in PrintComponent(c)
  {
    DecimalShape(if c >= HARDENED then c - HARDENED else c);
  }

  /** Text that neither starts nor ends with a space is its own trimming. */
  lemma NoTrim(s: string)
    requires s != "" && !IsSpace(s[0]) && !IsSpace(s[|s| - 1])
    ensures TrimSpace(s) == s
  {
  }

  /** Reading the decimal digits of `n` in front of any other text accumulates `n`. */
  lemma {:induction false} DigitsOfDecimal(n: nat, rest: string, afterDigit: bool)
    ensures Digits(Decimal(n) + rest, 10, afterDigit, 0, 0) == Digits(rest, 10, true, n, |Decimal(n)|)
    decreases n
  {
    if n < 10 {
      assert ([Digit(n)] + rest)[1..] == rest;
    } else {
      var tail := [Digit(n % 10)] + rest;
      assert Decimal(n) + rest == Decimal(n / 10) + tail;
      DigitsOfDecimal(n / 10, tail, afterDigit);
      assert tail[1..] == rest;
    }
  }

  lemma ParseDecimal(n: nat)
    ensures ParseBig(Decimal(n)) == Some(n)
  {
    DecimalShape(n);
    DigitsOfDecimal(n, "", false);
    assert Decimal(n) + "" == Decimal(n);
  }

  lemma ParsePrinted(c: uint32)
    ensures ParseComponent(PrintComponent(c)) == Some(c)
  {
    var n := if c >= HARDENED then c - HARDENED else c;
    DecimalShape(n);
    ParseDecimal(n);
    NoTrim(Decimal(n));
    var text := PrintComponent(c);
    assert text[0] == Decimal(n)[0];
    NoTrim(text);
    if c >= HARDENED { assert text[..|text| - 1] == Decimal(n); }
  }

  lemma {:induction false} ParseTexts(path: seq<uint32>)
    ensures ParseAll(Texts(path)) == Some(path)
  {
    ParseTextsThen(path, []);
    assert Texts(path) + [] == Texts(path) && path + [] == path;
  }
}
