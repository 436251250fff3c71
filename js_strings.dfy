/**
 * The parts of JavaScript's string semantics (ECMA-262) that the backend relies on:
 * white space, `trim`, `includes`/`indexOf`/`startsWith`, `replace` with a string
 * pattern, `split` on one character, `toLowerCase`, `parseInt`, turning an integer
 * back into text, and `encodeURIComponent`.
 */
module JsStrings {

  // ------------------------------------------------------------------ white space

  /** The characters of the regular-expression class `\s`; `trim` and `parseInt` skip
      the same ones (ECMAScript WhiteSpace and LineTerminator). */
  predicate IsSpace(c: char) {
    if c <= ' ' then c == ' ' || '\t' <= c <= '\r'
    else '\U{00A0}' <= c && WideSpace(c)
  }

  /** The white-space characters beyond ASCII. */
  predicate WideSpace(c: char) {
    || c == '\U{00A0}' || c == '\U{1680}' || ('\U{2000}' <= c <= '\U{200A}')
    || c == '\U{2028}' || c == '\U{2029}' || c == '\U{202F}' || c == '\U{205F}'
    || c == '\U{3000}' || c == '\U{FEFF}'
  }

  predicate Blank(s: string) {
    forall i :: 0 <= i < |s| ==> SpaceAt(s, i)
  }

  predicate SpaceAt(s: string, i: nat)
    requires i < |s|
  {
    IsSpace(s[i])
  }

  /** Never two white-space characters in a row. */
  predicate NoDoubleSpace(s: string) {
    forall i :: 0 <= i < |s| - 1 ==> !IsSpace(s[i]) || !IsSpace(s[i + 1])
  }

  /** Every white-space character is a plain space. */
  predicate PlainSpaces(s: string) {
    forall i :: 0 <= i < |s| && IsSpace(s[i]) ==> s[i] == ' '
  }

  /** No white space at either end. */
  predicate Trimmed(s: string) {
    |s| > 0 ==> !IsSpace(s[0]) && !IsSpace(s[|s| - 1])
  }

  /** The white space that `trimStart` removes. */
  function TrimStart(s: string): (r: string)
    ensures |r| <= |s| && r == s[|s| - |r|..]
    ensures r == "" || !IsSpace(r[0])
    ensures Blank(s[..|s| - |r|])
    decreases |s|
  {
    if |s| > 0 && IsSpace(s[0]) then
      var r := TrimStart(s[1..]);
      BlankCons(s[0], s[1..][..|s| - 1 - |r|]);
      assert s[..|s| - |r|] == [s[0]] + s[1..][..|s| - 1 - |r|];
      r
    else
      s
  }

  function TrimEnd(s: string): (r: string)
    ensures |r| <= |s| && r == s[..|r|]
    ensures r == "" || !IsSpace(r[|r| - 1])
    ensures Blank(s[|r|..])
    decreases |s|
  {
    if |s| > 0 && IsSpace(s[|s| - 1]) then
      var r := TrimEnd(s[..|s| - 1]);
      BlankSnoc(s[..|s| - 1][|r|..], s[|s| - 1]);
      assert s[|r|..] == s[..|s| - 1][|r|..] + [s[|s| - 1]];
      r
    else
      s
  }

  lemma BlankCons(c: char, t: string)
    requires IsSpace(c) && Blank(t)
    ensures Blank([c] + t)
  {
    forall i | 0 < i <= |t| ensures SpaceAt([c] + t, i) {
      assert SpaceAt(t, i - 1);
    }
  }

  lemma BlankSnoc(t: string, c: char)
    requires IsSpace(c) && Blank(t)
    ensures Blank(t + [c])
  {
    forall i | 0 <= i < |t| ensures SpaceAt(t + [c], i) {
      assert SpaceAt(t, i);
    }
  }

  /** `s.trim()` */
  function Trim(s: string): (r: string)
    ensures Trimmed(r)
  {
    TrimEnd(TrimStart(s))
  }

  /** `Trim(s)` is the slice of `s` between its leading and its trailing white space. */
  lemma TrimIsSlice(s: string) returns (k: nat)
    ensures k + |Trim(s)| <= |s| && Trim(s) == s[k..k + |Trim(s)|]
    ensures Blank(s[..k]) && Blank(s[k + |Trim(s)|..])
  {
    var a, b := TrimSplit(s);
    k := |a|;
    Pieces(s, a, Trim(s), b);
  }

  /** The text is empty after trimming exactly when it is all white space. */
  lemma {:induction false} TrimEmptyIffBlank(s: string)
    ensures Trim(s) == "" <==> Blank(s)
  {
    var k := TrimIsSlice(s);
    if Trim(s) == "" {
      forall i | 0 <= i < |s| ensures SpaceAt(s, i) {
        if i < k { assert SpaceAt(s[..k], i); } else { assert SpaceAt(s[k..], i - k); }
      }
    } else {
      assert !SpaceAt(s, k);
    }
  }

  /** `s.replace(/\s+/g, '')`: every white-space character removed. */
  function RemoveSpaces(s: string): (r: string)
    ensures |r| <= |s|
    ensures forall i :: 0 <= i < |r| ==> !IsSpace(r[i])
  {
    if |s| == 0 then "" else (if IsSpace(s[0]) then "" else [s[0]]) + RemoveSpaces(s[1..])
  }

  /** A text without white space is left as it is. */
  lemma {:induction false} RemoveSpacesOfSolid(s: string)
    requires forall i :: 0 <= i < |s| ==> !IsSpace(s[i])
    ensures RemoveSpaces(s) == s
    decreases |s|
  {
    if |s| > 0 {
      RemoveSpacesOfSolid(s[1..]);
    }
  }

  lemma {:induction false} RemoveSpacesAppend(a: string, b: string)
    ensures RemoveSpaces(a + b) == RemoveSpaces(a) + RemoveSpaces(b)
    decreases |a|
  {
    if |a| > 0 {
      assert (a + b)[1..] == a[1..] + b;
      RemoveSpacesAppend(a[1..], b);
    } else {
      assert a + b == b;
    }
  }

  lemma {:induction false} RemoveSpacesOfBlank(s: string)
    requires Blank(s)
    ensures RemoveSpaces(s) == ""
    decreases |s|
  {
    if |s| > 0 {
      assert SpaceAt(s, 0);
      assert forall i :: 0 <= i < |s| - 1 ==> SpaceAt(s, i + 1) ==> SpaceAt(s[1..], i);
      RemoveSpacesOfBlank(s[1..]);
    }
  }

  /** Trimming keeps every character that is not white space, in order. */
  lemma TrimKeepsContent(s: string)
    ensures RemoveSpaces(Trim(s)) == RemoveSpaces(s)
  {
    var a, b := TrimSplit(s);
    RemoveSpacesAround(a, Trim(s), b);
  }

  /** A text is its trimmed form between two runs of white space. */
  lemma TrimSplit(s: string) returns (a: string, b: string)
    ensures s == a + Trim(s) + b && Blank(a) && Blank(b)
  {
    var t := TrimStart(s);
    var r := TrimEnd(t);
    a, b := s[..|s| - |t|], t[|r|..];
    SplitTwice(s, |s| - |t|, |r|);
  }

  /** The three pieces of a text are its slices. */
  lemma Pieces(s: string, a: string, t: string, b: string)
    requires s == a + t + b
    ensures s[..|a|] == a && s[|a|..|a| + |t|] == t && s[|a| + |t|..] == b
  {
  }

  /** Cutting a text at n, then its rest at m, gives three pieces that make it up. */
  lemma SplitTwice(s: string, n: nat, m: nat)
    requires n + m <= |s|
    ensures s == s[..n] + s[n..][..m] + s[n..][m..]
  {
    assert s == s[..n] + s[n..];
    assert s[n..] == s[n..][..m] + s[n..][m..];
  }

  /** White space on either side of a text adds nothing once white space is removed. */
  lemma RemoveSpacesAround(a: string, t: string, b: string)
    requires Blank(a) && Blank(b)
    ensures RemoveSpaces(a + t + b) == RemoveSpaces(t)
  {
    RemoveSpacesAppend(a + t, b);
    RemoveSpacesAppend(a, t);
    RemoveSpacesOfBlank(a);
    RemoveSpacesOfBlank(b);
    assert "" + RemoveSpaces(t) + "" == RemoveSpaces(t);
  }

  /** `s.replace(/[\n\r\s]+/g, ' ')`: every maximal run of white space becomes one space. */
  function CollapseSpaces(s: string): (r: string)
    ensures |r| == 0 <==> |s| == 0
    ensures |s| > 0 ==> r[0] == if IsSpace(s[0]) then ' ' else s[0]
    ensures NoDoubleSpace(r) && PlainSpaces(r)
    decreases |s|
  {
    if |s| == 0 then ""
    else if IsSpace(s[0]) then " " + CollapseSpaces(TrimStart(s))
    else [s[0]] + CollapseSpaces(s[1..])
  }

  /** Collapsing keeps every character that is not white space, in order. */
  lemma {:induction false} CollapseKeepsContent(s: string)
    ensures RemoveSpaces(CollapseSpaces(s)) == RemoveSpaces(s)
    decreases |s|
  {
    if |s| == 0 {
    } else if IsSpace(s[0]) {
      var t := TrimStart(s);
      CollapseKeepsContent(t);
      RemoveSpacesAppend(" ", CollapseSpaces(t));
      assert s == s[..|s| - |t|] + t;
      RemoveSpacesAppend(s[..|s| - |t|], t);
      RemoveSpacesOfBlank(s[..|s| - |t|]);
    } else {
      CollapseKeepsContent(s[1..]);
      RemoveSpacesAppend([s[0]], CollapseSpaces(s[1..]));
    }
  }

  /** A slice of a text without doubled white space has none either. */
  lemma SliceNoDoubleSpace(s: string, k: nat, t: string)
    requires NoDoubleSpace(s) && PlainSpaces(s) && k + |t| <= |s| && t == s[k..k + |t|]
    ensures NoDoubleSpace(t) && PlainSpaces(t)
  {
    forall i | 0 <= i < |t| - 1 ensures !IsSpace(t[i]) || !IsSpace(t[i + 1]) {
      assert t[i] == s[k + i] && t[i + 1] == s[k + i + 1];
    }
    forall i | 0 <= i < |t| && IsSpace(t[i]) ensures t[i] == ' ' {
      assert t[i] == s[k + i];
    }
  }

  /** Trimming a collapsed text leaves it collapsed. */
  lemma TrimKeepsCollapsed(s: string)
    requires NoDoubleSpace(s) && PlainSpaces(s)
    ensures NoDoubleSpace(Trim(s)) && PlainSpaces(Trim(s))
  {
    var k := TrimIsSlice(s);
    SliceNoDoubleSpace(s, k, Trim(s));
  }

  /** A text that is already collapsed does not change when collapsed again. */
  lemma {:induction false} CollapseFixed(s: string)
    requires NoDoubleSpace(s) && PlainSpaces(s)
    ensures CollapseSpaces(s) == s
    decreases |s|
  {
    if |s| > 0 {
      SliceNoDoubleSpace(s, 1, s[1..]);
      CollapseFixed(s[1..]);
      if IsSpace(s[0]) {
        assert s[0] == ' ';
        assert |s| == 1 || !IsSpace(s[1]);
        SpaceThenSolid(s);
      }
      CollapseCons(s);
    }
  }

  /** Collapsing a text whose tail is unchanged, and whose first character is a lone plain
      space or not white space, changes nothing. */
  lemma CollapseCons(s: string)
    requires |s| > 0 && CollapseSpaces(s[1..]) == s[1..]
    requires IsSpace(s[0]) ==> s[0] == ' ' && TrimStart(s) == s[1..]
    ensures CollapseSpaces(s) == s
  {
    assert s == [s[0]] + s[1..];
  }

  /** One space before a character that is not white space is all TrimStart removes. */
  lemma SpaceThenSolid(s: string)
    requires |s| > 0 && IsSpace(s[0]) && (|s| == 1 || !IsSpace(s[1]))
    ensures TrimStart(s) == s[1..]
  {
    if |s| > 1 {
      assert s[1..][0] == s[1];
    }
  }

  // ------------------------------------------------------------------ search

  predicate OccursAt(s: string, p: string, i: int) {
    0 <= i && i + |p| <= |s| && s[i..i + |p|] == p
  }

  /** `s.indexOf(p, from)`: the first position at or after `from` where `p` occurs, or -1. */
  function IndexFrom(s: string, p: string, from: nat): (r: int)
    ensures r == -1 || (from <= r && OccursAt(s, p, r))
    ensures forall j :: from <= j && (r == -1 || j < r) ==> !OccursAt(s, p, j)
    decreases |s| - from
  {
    if from + |p| > |s| then -1
    else if s[from..from + |p|] == p then from
    else IndexFrom(s, p, from + 1)
  }

  /** `s.indexOf(p)` */
  function IndexOf(s: string, p: string): (r: int)
    ensures r == -1 || OccursAt(s, p, r)
    ensures forall j :: 0 <= j && (r == -1 || j < r) ==> !OccursAt(s, p, j)
  {
    IndexFrom(s, p, 0)
  }

  /** `s.includes(p)` */
  predicate Contains(s: string, p: string) {
    IndexOf(s, p) >= 0
  }

  /** `s.startsWith(p)` */
  predicate StartsWith(s: string, p: string) {
    |p| <= |s| && s[..|p|] == p
  }

  /** When the first character of `p` does not occur in `a`, the first occurrence of `p`
      in `a + p + b` is the one right after `a`. */
  lemma FirstOccurrence(a: string, p: string, b: string)
    requires |p| > 0 && p[0] !in a
    ensures IndexOf(a + p + b, p) == |a|
  {
    var s := a + p + b;
    assert s[|a|..|a| + |p|] == p;
    assert OccursAt(s, p, |a|);
  }

  lemma NotContained(s: string, p: string)
    requires |p| > 0 && p[0] !in s
    ensures !Contains(s, p)
  {
    forall j | 0 <= j ensures !OccursAt(s, p, j) {
      if j < |s| {
        assert s[j] != p[0];
      }
    }
  }

  // ------------------------------------------------------------------ replace

  /** GetSubstitution (section 22.1.3.19.1 of ECMA-262) for a string pattern, which has no
      capture groups: `$$`, `$&`, `` $` `` and `$'` are expanded, every other `$` is literal. */
  function Substitution(rep: string, matched: string, before: string, after: string): string
    decreases |rep|
  {
    if |rep| == 0 then ""
    else if rep[0] == '$' && |rep| >= 2 && rep[1] == '$' then "$" + Substitution(rep[2..], matched, before, after)
    else if rep[0] == '$' && |rep| >= 2 && rep[1] == '&' then matched + Substitution(rep[2..], matched, before, after)
    else if rep[0] == '$' && |rep| >= 2 && rep[1] == '`' then before + Substitution(rep[2..], matched, before, after)
    else if rep[0] == '$' && |rep| >= 2 && rep[1] == '\'' then after + Substitution(rep[2..], matched, before, after)
    else [rep[0]] + Substitution(rep[1..], matched, before, after)
  }

  /** A replacement without `$` is inserted literally. */
  lemma {:induction false} SubstitutionLiteral(rep: string, matched: string, before: string, after: string)
    requires '$' !in rep
    ensures Substitution(rep, matched, before, after) == rep
    decreases |rep|
  {
    if |rep| > 0 {
      assert '$' !in rep[1..];
      SubstitutionLiteral(rep[1..], matched, before, after);
    }
  }

  /** `s.replace(p, rep)` with a string pattern: only the first occurrence is replaced. */
  function ReplaceFirst(s: string, p: string, rep: string): (r: string)
    ensures !Contains(s, p) ==> r == s
  {
    var i := IndexOf(s, p);
    if i < 0 then s
    else s[..i] + Substitution(rep, p, s[..i], s[i + |p|..]) + s[i + |p|..]
  }

  /** Replacing the first occurrence, which lies right after `a`, by a text without `$`. */
  lemma ReplaceAfter(a: string, p: string, b: string, rep: string)
    requires |p| > 0 && p[0] !in a && '$' !in rep
    ensures ReplaceFirst(a + p + b, p, rep) == a + rep + b
  {
    var s := a + p + b;
    FirstOccurrence(a, p, b);
    assert s[..|a|] == a && s[|a| + |p|..] == b;
    SubstitutionLiteral(rep, p, a, b);
  }

  // ------------------------------------------------------------------ split

  /** `s.split(c)` for a separator of one character. */
  function Split(s: string, c: char): (parts: seq<string>)
    ensures |parts| >= 1
    ensures forall k :: 0 <= k < |parts| ==> c !in parts[k]
    decreases |s|
  {
    if |s| == 0 then [""]
    else
      var rest := Split(s[1..], c);
      if s[0] == c then [""] + rest else [[s[0]] + rest[0]] + rest[1..]
  }

  /** `parts.join(c)` */
  function Join(parts: seq<string>, c: char): string
    requires |parts| >= 1
    decreases |parts|
  {
    if |parts| == 1 then parts[0] else parts[0] + [c] + Join(parts[1..], c)
  }

  lemma {:induction false} SplitWithout(s: string, c: char)
    requires c !in s
    ensures Split(s, c) == [s]
    decreases |s|
  {
    if |s| > 0 {
      SplitWithout(s[1..], c);
      assert [s[0]] + s[1..] == s;
    }
  }

  /** Splitting around one separator splits each side separately. */
  lemma {:induction false} SplitAround(a: string, c: char, b: string)
    ensures Split(a + [c] + b, c) == Split(a, c) + Split(b, c)
    decreases |a|
  {
    var s := a + [c] + b;
    if |a| == 0 {
      assert s[1..] == b;
    } else {
      assert s[1..] == a[1..] + [c] + b;
      SplitAround(a[1..], c, b);
    }
  }

  /** Joining one more piece appends the separator and that piece. */
  lemma {:induction false} JoinSnoc(parts: seq<string>, x: string, c: char)
    requires |parts| >= 1
    ensures Join(parts + [x], c) == Join(parts, c) + [c] + x
    decreases |parts|
  {
    if |parts| > 1 {
      assert (parts + [x])[1..] == parts[1..] + [x];
      JoinSnoc(parts[1..], x, c);
    } else {
      assert (parts + [x])[1..] == [x];
    }
  }

  /** Joining pieces that do not contain the separator and splitting again gives them back. */
  lemma {:induction false} SplitJoin(parts: seq<string>, c: char)
    requires |parts| >= 1
    requires forall k :: 0 <= k < |parts| ==> c !in parts[k]
    ensures Split(Join(parts, c), c) == parts
    decreases |parts|
  {
    SplitWithout(parts[0], c);
    if |parts| > 1 {
      SplitJoin(parts[1..], c);
      SplitAround(parts[0], c, Join(parts[1..], c));
    }
  }

  // ------------------------------------------------------------------ case

  /** `toLowerCase` on one character, for the ASCII letters. */
  function LowerChar(c: char): (r: char)
    ensures IsSpace(r) <==> IsSpace(c)
    ensures !('A' <= r <= 'Z')
  {
    if 'A' <= c <= 'Z' then (c as int + 32) as char else c
  }

  /** `s.toLowerCase()`, for the ASCII letters. */
  function Lower(s: string): (r: string)
    ensures |r| == |s|
    ensures forall i :: 0 <= i < |s| ==> r[i] == LowerChar(s[i])
  {
    seq(|s|, i requires 0 <= i < |s| => LowerChar(s[i]))
  }

  /** Lower-casing brings in no character other than a letter. */
  lemma LowerKeepsAbsent(s: string, c: char)
    requires c !in s && !('A' <= c <= 'Z') && !('a' <= c <= 'z')
    ensures c !in Lower(s)
  {
    forall i | 0 <= i < |s| ensures Lower(s)[i] != c {
      assert s[i] != c;
    }
  }

  // ------------------------------------------------------------------ numbers

  /** A JavaScript number that `parseInt` can return: an integer or NaN. */
  datatype Num = NaN | Int(value: int)

  /** The value of a character as a digit; 36 when it is a digit of no radix. */
  function DigitValue(c: char): (v: nat)
    ensures v <= 36
  {
    if '0' <= c <= '9' then c as int - '0' as int
    else if 'a' <= c <= 'z' then c as int - 'a' as int + 10
    else if 'A' <= c <= 'Z' then c as int - 'A' as int + 10
    else 36
  }

  /** How many leading characters of `s` are digits of `radix`. */
  function DigitRun(s: string, radix: nat): (n: nat)
    ensures n <= |s|
    ensures forall i :: 0 <= i < n ==> DigitValue(s[i]) < radix
    ensures n < |s| ==> DigitValue(s[n]) >= radix
    decreases |s|
  {
    if |s| > 0 && DigitValue(s[0]) < radix then 1 + DigitRun(s[1..], radix) else 0
  }

  /** The value of a string of digits, most significant first. */
  function DigitsValue(d: string, radix: nat): nat
    decreases |d|
  {
    if |d| == 0 then 0 else DigitsValue(d[..|d| - 1], radix) * radix + DigitValue(d[|d| - 1])
  }

  /** The digits `parseInt` reads after the sign: a `0x`/`0X` prefix selects radix 16,
      then the longest run of digits of the radix is read; no digit at all is NaN. */
  function ParseDigits(u: string): Num {
    if |u| >= 2 && u[0] == '0' && (u[1] == 'x' || u[1] == 'X') then ParseRadix(u[2..], 16)
    else ParseRadix(u, 10)
  }

  /** The longest run of digits of `radix` at the start of `digits`; none at all is NaN. */
  function ParseRadix(digits: string, radix: nat): Num {
    var n := DigitRun(digits, radix);
    if n == 0 then NaN else Int(DigitsValue(digits[..n], radix))
  }

  function Negate(x: Num): Num {
    match x
    case NaN => NaN
    case Int(v) => Int(-v)
  }

  /** `parseInt(s)` with no radix (section 19.2.5 of ECMA-262): leading white space is
      skipped and one sign is read before the digits. */
  function ParseInt(s: string): Num {
    var t := TrimStart(s);
    if |t| > 0 && t[0] == '-' then Negate(ParseDigits(t[1..]))
    else if |t| > 0 && t[0] == '+' then ParseDigits(t[1..])
    else ParseDigits(t)
  }

  function DecimalDigit(n: nat): (c: char)
    requires n < 10
    ensures '0' <= c <= '9' && DigitValue(c) == n
  {
    ('0' as int + n) as char
  }

  /** The decimal numeral of a natural number, without leading zeros. */
  function Decimal(n: nat): (s: string)
    ensures |s| > 0 && forall i :: 0 <= i < |s| ==> '0' <= s[i] <= '9'
    ensures s[0] == '0' ==> n == 0 && |s| == 1
    decreases n
  {
    if n < 10 then [DecimalDigit(n)] else Decimal(n / 10) + [DecimalDigit(n % 10)]
  }

  /** `String(x)` / `${x}` for an integer or NaN. */
  function NumberToString(x: Num): string {
    match x
    case NaN => "NaN"
    case Int(v) => if v < 0 then "-" + Decimal(-v) else Decimal(v)
  }

  /** `x + k` where `x` may be NaN. */
  function AddInt(x: Num, k: int): Num {
    match x
    case NaN => NaN
    case Int(v) => Int(v + k)
  }

  lemma {:induction false} DecimalDigits(n: nat)
    ensures DigitRun(Decimal(n), 10) == |Decimal(n)|
    ensures DigitsValue(Decimal(n), 10) == n
    decreases n
  {
    var s := Decimal(n);
    if n >= 10 {
      DecimalDigits(n / 10);
      assert s[..|s| - 1] == Decimal(n / 10);
    }
  }

  lemma DecimalRead(n: nat)
    ensures ParseDigits(Decimal(n)) == Int(n)
  {
    var d := Decimal(n);
    DecimalDigits(n);
    assert |d| < 2 || d[0] != '0';
    assert d[..|d|] == d;
  }

  /** `parseInt` reads back every integer that `String` prints. */
  lemma ParseIntPrinted(v: int)
    ensures ParseInt(NumberToString(Int(v))) == Int(v)
  {
    if v < 0 {
      ParseIntNegative(v);
    } else {
      ParseIntNumeral(v);
    }
  }

  lemma ParseIntNumeral(n: nat)
    ensures ParseInt(Decimal(n)) == Int(n)
  {
    ParseIntOfDigit(Decimal(n));
    DecimalRead(n);
  }

  lemma ParseIntNegative(v: int)
    requires v < 0
    ensures ParseInt(NumberToString(Int(v))) == Int(v)
  {
    var s := NumberToString(Int(v));
    assert s[1..] == Decimal(-v);
    ParseIntOfMinus(s);
    DecimalRead(-v);
  }

  /** A text that starts with a digit is read as digits from its first character. */
  lemma ParseIntOfDigit(t: string)
    requires |t| > 0 && '0' <= t[0] <= '9'
    ensures ParseInt(t) == ParseDigits(t)
  {
    assert !IsSpace(t[0]);
    assert TrimStart(t) == t;
  }

  lemma ParseIntOfMinus(t: string)
    requires |t| > 0 && t[0] == '-'
    ensures ParseInt(t) == Negate(ParseDigits(t[1..]))
  {
    assert !IsSpace(t[0]);
    assert TrimStart(t) == t;
  }

  // ------------------------------------------------------------------ URI encoding

  /** The characters `encodeURIComponent` leaves alone. */
  predicate Unreserved(c: char) {
    || 'A' <= c <= 'Z' || 'a' <= c <= 'z' || '0' <= c <= '9'
    || c == '-' || c == '_' || c == '.' || c == '!' || c == '~' || c == '*' || c == '\''
    || c == '(' || c == ')'
  }

  /** The UTF-8 encoding of one Unicode scalar value. */
  function Utf8(c: char): (bytes: seq<nat>)
    ensures 1 <= |bytes| <= 4
    ensures forall k :: 0 <= k < |bytes| ==> bytes[k] < 256
  {
    var n := c as int;
    if n < 0x80 then [n]
    else if n < 0x800 then [0xC0 + n / 64, 0x80 + n % 64]
    else if n < 0x10000 then [0xE0 + n / 4096, 0x80 + (n / 64) % 64, 0x80 + n % 64]
    else [0xF0 + n / 262144, 0x80 + (n / 4096) % 64, 0x80 + (n / 64) % 64, 0x80 + n % 64]
  }

  function HexDigit(n: nat): (c: char)
    requires n < 16
    ensures Unreserved(c)
  {
    if n < 10 then DecimalDigit(n) else ('A' as int + n - 10) as char
  }

  /** `%XX` for every byte, upper-case hexadecimal. */
  function PercentBytes(bytes: seq<nat>): (r: string)
    requires forall k :: 0 <= k < |bytes| ==> bytes[k] < 256
    ensures |r| == 3 * |bytes|
    ensures forall i :: 0 <= i < |r| ==> Unreserved(r[i]) || r[i] == '%'
  {
    if |bytes| == 0 then ""
    else ['%', HexDigit(bytes[0] / 16), HexDigit(bytes[0] % 16)] + PercentBytes(bytes[1..])
  }

  /** `encodeURIComponent(s)`. A Dafny string holds Unicode scalar values only, so a lone
      surrogate, on which JavaScript raises a URIError, cannot be given to it. */
  function EncodeURIComponent(s: string): (r: string)
    ensures forall i :: 0 <= i < |r| ==> Unreserved(r[i]) || r[i] == '%'
    decreases |s|
  {
    if |s| == 0 then ""
    else (if Unreserved(s[0]) then [s[0]] else PercentBytes(Utf8(s[0]))) + EncodeURIComponent(s[1..])
  }

  /** Text made only of unreserved characters is not changed by the encoding. */
  lemma {:induction false} EncodeUnreserved(s: string)
    requires forall i :: 0 <= i < |s| ==> Unreserved(s[i])
    ensures EncodeURIComponent(s) == s
    decreases |s|
  {
    if |s| > 0 {
      EncodeUnreserved(s[1..]);
      assert [s[0]] + s[1..] == s;
    }
  }
}
