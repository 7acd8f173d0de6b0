/**
 * The JavaScript string built-ins that the QR generator's own code relies on, as
 * functions over `string` (Dafny's `seq<char>`, one Unicode scalar value per element):
 * `||` on possibly-undefined strings, `includes`, `trim`, `split`, `replace`,
 * `toLowerCase`/`toUpperCase`, number-to-string conversion and `encodeURIComponent`.
 * Each comes with a partner: an inverse or an independent characterisation.
 */
module JsStrings {
  import opened Wrappers

  // ---------------------------------------------------------------------------
  // Truthiness and `||`
  // ---------------------------------------------------------------------------

  /** `s || fallback` for a string `s`: the empty string is the only falsy string. */
  function OrElse(s: string, fallback: string): string {
    if s == "" then fallback else s
  }

  /** `o || fallback` where `o` may be `undefined` (modelled as `None`). */
  function OptOrElse(o: Option<string>, fallback: string): string {
    match o
    case None => fallback
    case Some(s) => OrElse(s, fallback)
  }

  /** JavaScript truthiness of a possibly-undefined string. */
  predicate Truthy(o: Option<string>) {
    o.Some? && o.value != ""
  }

  lemma OptOrElseTruthy(o: Option<string>, fallback: string)
    ensures Truthy(o) ==> OptOrElse(o, fallback) == o.value
    ensures !Truthy(o) ==> OptOrElse(o, fallback) == fallback
  {
  }

  // ---------------------------------------------------------------------------
  // String.prototype.includes
  // ---------------------------------------------------------------------------

  /** `s.includes(t)`: `t` occurs in `s` as a contiguous piece. */
  predicate Includes(s: string, t: string)
    decreases |s|
  {
    t <= s || (|s| > 0 && Includes(s[1..], t))
  }

  /** `includes` holds exactly when some suffix of `s` starts with `t`. */
  lemma {:induction false} IncludesAtSuffix(s: string, t: string)
    ensures Includes(s, t) <==> exists i | 0 <= i <= |s| :: t <= s[i..]
  {
    if |s| == 0 {
      assert s[0..] == s;
    } else {
      IncludesAtSuffix(s[1..], t);
      if Includes(s[1..], t) {
        var i :| 0 <= i <= |s[1..]| && t <= s[1..][i..];
        assert s[1..][i..] == s[i + 1..];
      }
      if exists i | 0 <= i <= |s| :: t <= s[i..] {
        var i :| 0 <= i <= |s| && t <= s[i..];
        if i == 0 {
          assert s[0..] == s;
        } else {
          assert s[1..][i - 1..] == s[i..];
        }
      }
      assert s[0..] == s;
    }
  }

  /** A one-character `includes` is sequence membership. */
  lemma {:induction false} IncludesChar(s: string, c: char)
    ensures Includes(s, [c]) <==> c in s
  {
    if |s| > 0 {
      IncludesChar(s[1..], c);
      assert s == [s[0]] + s[1..];
    }
  }

  // ---------------------------------------------------------------------------
  // String.prototype.trim
  // ---------------------------------------------------------------------------

  /**
   * The characters `trim` removes: ECMAScript's WhiteSpace (tab, vertical tab, form
   * feed, space, no-break space, the byte-order mark and the space separators of
   * category Zs) and LineTerminator (line feed, carriage return, U+2028, U+2029).
   */
  predicate IsJsWhiteSpace(c: char) {
    var n := c as int;
    n == 0x09 || n == 0x0A || n == 0x0B || n == 0x0C || n == 0x0D || n == 0x20 ||
    n == 0xA0 || n == 0x1680 || (0x2000 <= n <= 0x200A) || n == 0x2028 || n == 0x2029 ||
    n == 0x202F || n == 0x205F || n == 0x3000 || n == 0xFEFF
  }

  function TrimStart(s: string): string
    decreases |s|
  {
    if |s| > 0 && IsJsWhiteSpace(s[0]) then TrimStart(s[1..]) else s
  }

  function TrimEnd(s: string): string
    decreases |s|
  {
    if |s| > 0 && IsJsWhiteSpace(s[|s| - 1]) then TrimEnd(s[..|s| - 1]) else s
  }

  /** `s.trim()`. */
  function Trim(s: string): string {
    TrimEnd(TrimStart(s))
  }

  /** `TrimStart` drops exactly the leading white space. */
  lemma {:induction false} TrimStartShape(s: string)
    ensures |TrimStart(s)| <= |s| && TrimStart(s) == s[|s| - |TrimStart(s)|..]
    ensures forall k | 0 <= k < |s| - |TrimStart(s)| :: IsJsWhiteSpace(s[k])
    ensures TrimStart(s) == [] || !IsJsWhiteSpace(TrimStart(s)[0])
    decreases |s|
  {
    if |s| > 0 && IsJsWhiteSpace(s[0]) {
      TrimStartShape(s[1..]);
      assert s[1..][|s[1..]| - |TrimStart(s[1..])|..] == s[|s| - |TrimStart(s)|..];
    }
  }

  /** `TrimEnd` drops exactly the trailing white space. */
  lemma {:induction false} TrimEndShape(s: string)
    ensures |TrimEnd(s)| <= |s| && TrimEnd(s) == s[..|TrimEnd(s)|]
    ensures forall k | |TrimEnd(s)| <= k < |s| :: IsJsWhiteSpace(s[k])
    ensures TrimEnd(s) == [] || !IsJsWhiteSpace(TrimEnd(s)[|TrimEnd(s)| - 1])
    decreases |s|
  {
    if |s| > 0 && IsJsWhiteSpace(s[|s| - 1]) {
      TrimEndShape(s[..|s| - 1]);
      assert s[..|s| - 1][..|TrimEnd(s)|] == s[..|TrimEnd(s)|];
    }
  }

  /**
   * `trim` yields the piece `s[i..j]` of `s` that is left after dropping leading and
   * trailing white space: everything outside it is white space and it neither starts
   * nor ends with white space.
   */
  lemma TrimShape(s: string)
    ensures var r := Trim(s);
      var i := |s| - |TrimStart(s)|;
      var j := i + |r|;
      0 <= i <= j <= |s| && r == s[i..j] &&
      (forall k | 0 <= k < i :: IsJsWhiteSpace(s[k])) &&
      (forall k | j <= k < |s| :: IsJsWhiteSpace(s[k])) &&
      (r == [] || (!IsJsWhiteSpace(r[0]) && !IsJsWhiteSpace(r[|r| - 1])))
  {
    var t := TrimStart(s);
    TrimStartShape(s);
    TrimEndShape(t);
    var i := |s| - |t|;
    var r := TrimEnd(t);
    forall k | i + |r| <= k < |s|
      ensures IsJsWhiteSpace(s[k])
    {
      assert s[k] == t[k - i];
    }
  }

  /** A trimmed string keeps no leading or trailing white space. */
  lemma {:induction false} TrimNoEdges(r: string)
    requires r == [] || (!IsJsWhiteSpace(r[0]) && !IsJsWhiteSpace(r[|r| - 1]))
    ensures TrimStart(r) == r && TrimEnd(r) == r && Trim(r) == r
  {
  }

  /** `trim` is idempotent. */
  lemma TrimIdempotent(s: string)
    ensures Trim(Trim(s)) == Trim(s)
  {
    TrimShape(s);
    TrimNoEdges(Trim(s));
  }

  /** The trim of `s` is empty exactly when `s` is all white space. */
  lemma TrimEmptyIffBlank(s: string)
    ensures Trim(s) == "" <==> forall k | 0 <= k < |s| :: IsJsWhiteSpace(s[k])
  {
    TrimShape(s);
    var i := |s| - |TrimStart(s)|;
    if Trim(s) != "" {
      assert Trim(s)[0] == s[i];
      assert !IsJsWhiteSpace(s[i]);
    }
  }

  // ---------------------------------------------------------------------------
  // String.prototype.split with a one-character separator, and its inverse join
  // ---------------------------------------------------------------------------

  /** `s.split(sep)`: never empty; the empty string splits into one empty piece. */
  function Split(s: string, sep: char): (parts: seq<string>)
    ensures |parts| >= 1
    decreases |s|
  {
    if s == [] then [[]]
    else
      var rest := Split(s[1..], sep);
      if s[0] == sep then [[]] + rest
      else [[s[0]] + rest[0]] + rest[1..]
  }

  /** `parts.join(sep)`. */
  function Join(parts: seq<string>, sep: char): string
    decreases |parts|
  {
    if |parts| == 0 then ""
    else if |parts| == 1 then parts[0]
    else parts[0] + [sep] + Join(parts[1..], sep)
  }

  /** Joining the pieces back restores the string, and no piece holds the separator. */
  lemma {:induction false} JoinSplit(s: string, sep: char)
    ensures Join(Split(s, sep), sep) == s
    ensures forall p | p in Split(s, sep) :: sep !in p
    decreases |s|
  {
    if s != [] {
      var rest := Split(s[1..], sep);
      JoinSplit(s[1..], sep);
      if s[0] == sep {
        assert Split(s, sep)[1..] == rest;
        assert s == [sep] + s[1..];
      } else {
        var parts := Split(s, sep);
        assert parts[1..] == rest[1..];
        if |rest| == 1 {
          assert s == [s[0]] + rest[0];
        } else {
          assert rest[1..] == rest[1..];
          assert Join(rest, sep) == rest[0] + [sep] + Join(rest[1..], sep);
          assert s == [s[0]] + s[1..];
        }
        forall p | p in parts
          ensures sep !in p
        {
          if p == parts[0] {
            assert rest[0] in rest;
          } else {
            assert p in rest;
          }
        }
      }
    }
  }

  /** A character in neither piece is not in their concatenation. */
  lemma NotInConcat(x: string, y: string, c: char)
    requires c !in x && c !in y
    ensures c !in x + y
  {
    assert forall k | 0 <= k < |x + y| :: (x + y)[k] == if k < |x| then x[k] else y[k - |x|];
  }

  /** Seven pieces, none holding the separator, split back out of their join. */
  lemma SplitSeven(a: string, b: string, c: string, d: string, e: string, f: string, g: string, sep: char)
    requires sep !in a && sep !in b && sep !in c && sep !in d && sep !in e && sep !in f && sep !in g
    ensures Split(Join([a, b, c, d, e, f, g], sep), sep) == [a, b, c, d, e, f, g]
  {
    SplitJoin([a, b, c, d, e, f, g], sep);
  }

  /** Joining a piece in front of a non-empty list adds the piece and one separator. */
  lemma JoinCons(x: string, rest: seq<string>, sep: char)
    requires |rest| >= 1
    ensures Join([x] + rest, sep) == x + [sep] + Join(rest, sep)
  {
    assert ([x] + rest)[1..] == rest;
  }

  /** A join of five pieces, written out. */
  lemma JoinFive(a: string, b: string, c: string, d: string, e: string, sep: char)
    ensures Join([a, b, c, d, e], sep) == a + [sep] + b + [sep] + c + [sep] + d + [sep] + e
  {
    JoinCons(d, [e], sep);
    assert [d, e] == [d] + [e];
    JoinCons(c, [d, e], sep);
    assert [c, d, e] == [c] + [d, e];
    JoinCons(b, [c, d, e], sep);
    assert [b, c, d, e] == [b] + [c, d, e];
    JoinCons(a, [b, c, d, e], sep);
    assert [a, b, c, d, e] == [a] + [b, c, d, e];
  }

  /** A join of seven pieces, written out. */
  lemma JoinSeven(a: string, b: string, c: string, d: string, e: string, f: string, g: string, sep: char)
    ensures Join([a, b, c, d, e, f, g], sep) ==
      a + [sep] + b + [sep] + c + [sep] + d + [sep] + e + [sep] + f + [sep] + g
  {
    JoinFive(c, d, e, f, g, sep);
    JoinCons(b, [c, d, e, f, g], sep);
    assert [b, c, d, e, f, g] == [b] + [c, d, e, f, g];
    JoinCons(a, [b, c, d, e, f, g], sep);
    assert [a, b, c, d, e, f, g] == [a] + [b, c, d, e, f, g];
  }

  /** A piece without separator glues onto the first piece of what follows it. */
  lemma {:induction false} SplitPrefix(a: string, t: string, sep: char)
    requires sep !in a
    ensures Split(a + t, sep) == [a + Split(t, sep)[0]] + Split(t, sep)[1..]
    decreases |a|
  {
    var p := Split(t, sep);
    if a != [] {
      assert a[0] in a;
      assert sep !in a[1..] by {
        forall k | 0 <= k < |a[1..]| ensures a[1..][k] != sep { assert a[1..][k] == a[k + 1]; }
      }
      SplitPrefix(a[1..], t, sep);
      assert (a + t)[1..] == a[1..] + t;
      var rest := Split(a[1..] + t, sep);
      assert rest[0] == a[1..] + p[0];
      assert rest[1..] == p[1..];
      assert [a[0]] + (a[1..] + p[0]) == a + p[0];
    } else {
      assert a + t == t;
      assert [] + p[0] == p[0];
      assert [p[0]] + p[1..] == p;
    }
  }

  /** Splitting a join of separator-free pieces gives the pieces back. */
  lemma {:induction false} SplitJoin(parts: seq<string>, sep: char)
    requires |parts| >= 1
    requires forall p | p in parts :: sep !in p
    ensures Split(Join(parts, sep), sep) == parts
    decreases |parts|
  {
    if |parts| == 1 {
      SplitPrefix(parts[0], "", sep);
      assert Split("", sep) == [""];
      assert parts[0] + "" == parts[0];
    } else {
      var tail := Join(parts[1..], sep);
      SplitJoin(parts[1..], sep);
      SplitPrefix(parts[0], [sep] + tail, sep);
      assert parts[0] + [sep] + tail == parts[0] + ([sep] + tail);
      assert ([sep] + tail)[1..] == tail;
      assert Split([sep] + tail, sep) == [[]] + Split(tail, sep);
      assert parts[0] + [] == parts[0];
      assert parts == [parts[0]] + parts[1..];
    }
  }

  // ---------------------------------------------------------------------------
  // String.prototype.replace
  // ---------------------------------------------------------------------------

  /** `s.replace(/[…]/g, "")`: every character of `drop` removed. */
  function RemoveAll(s: string, drop: set<char>): string
    decreases |s|
  {
    if s == [] then []
    else (if s[0] in drop then [] else [s[0]]) + RemoveAll(s[1..], drop)
  }

  /** The characters left by a global removal are those of `s` not in `drop`, in order. */
  lemma {:induction false} RemoveAllMembers(s: string, drop: set<char>)
    ensures |RemoveAll(s, drop)| <= |s|
    ensures forall c :: c in RemoveAll(s, drop) <==> c in s && c !in drop
    decreases |s|
  {
    if s != [] {
      RemoveAllMembers(s[1..], drop);
      assert s == [s[0]] + s[1..];
    }
  }

  /** A global removal works character by character, so it distributes over concatenation. */
  lemma {:induction false} RemoveAllAppend(a: string, b: string, drop: set<char>)
    ensures RemoveAll(a + b, drop) == RemoveAll(a, drop) + RemoveAll(b, drop)
    decreases |a|
  {
    if a != [] {
      RemoveAllAppend(a[1..], b, drop);
      assert (a + b)[1..] == a[1..] + b;
    } else {
      assert a + b == b;
    }
  }

  /** A string holding none of the dropped characters is left as it is. */
  lemma {:induction false} RemoveAllKeeps(s: string, drop: set<char>)
    requires forall c | c in s :: c !in drop
    ensures RemoveAll(s, drop) == s
    decreases |s|
  {
    if s != [] {
      assert forall c | c in s[1..] :: c in s;
      RemoveAllKeeps(s[1..], drop);
      assert s == [s[0]] + s[1..];
    }
  }

  /** The index of the first `c` in `s`, or `|s|` when there is none. */
  function IndexOf(s: string, c: char): (i: nat)
    ensures i <= |s| && c !in s[..i]
    ensures i < |s| <==> c in s
    ensures i < |s| ==> s[i] == c
    decreases |s|
  {
    if s == [] then 0
    else if s[0] == c then 0
    else
      var j := IndexOf(s[1..], c);
      assert s == [s[0]] + s[1..];
      assert s[..j + 1] == [s[0]] + s[1..][..j];
      j + 1
  }

  /** `s.replace("c", "")` with a string pattern: only the FIRST occurrence is removed. */
  function RemoveFirst(s: string, c: char): string
    decreases |s|
  {
    if s == [] then []
    else if s[0] == c then s[1..]
    else [s[0]] + RemoveFirst(s[1..], c)
  }

  /** Removing the first `c` from `a + [c] + b`, where `a` has no `c`, leaves `a + b`. */
  lemma {:induction false} RemoveFirstAfter(a: string, b: string, c: char)
    requires c !in a
    ensures RemoveFirst(a + [c] + b, c) == a + b
    decreases |a|
  {
    var s := a + [c] + b;
    if a == [] {
      assert s[1..] == b;
    } else {
      assert s[0] == a[0];
      assert s[1..] == a[1..] + [c] + b;
      assert c !in a[1..] by { assert forall x | x in a[1..] :: x in a; }
      RemoveFirstAfter(a[1..], b, c);
      assert a == [a[0]] + a[1..];
    }
  }

  /** `RemoveFirst` cuts out exactly the first occurrence, and is the identity without one. */
  lemma {:induction false} RemoveFirstCuts(s: string, c: char)
    ensures c !in s ==> RemoveFirst(s, c) == s
    ensures c in s ==> RemoveFirst(s, c) == s[..IndexOf(s, c)] + s[IndexOf(s, c) + 1..]
    decreases |s|
  {
    if c in s {
      var i := IndexOf(s, c);
      assert s == s[..i] + [c] + s[i + 1..];
      RemoveFirstAfter(s[..i], s[i + 1..], c);
    } else if s != [] {
      RemoveFirstCuts(s[1..], c);
      assert s == [s[0]] + s[1..];
    }
  }

  /** Removing the first `c` adds no character: what is left was all in `s`. */
  lemma {:induction false} RemoveFirstMembers(s: string, c: char)
    ensures forall x | x in RemoveFirst(s, c) :: x in s
    decreases |s|
  {
    if s != [] && s[0] != c {
      RemoveFirstMembers(s[1..], c);
      assert s == [s[0]] + s[1..];
    }
  }

  // ---------------------------------------------------------------------------
  // toLowerCase / toUpperCase (ASCII letters only)
  // ---------------------------------------------------------------------------

  function LowerChar(c: char): char {
    if 'A' <= c <= 'Z' then (c as int + 32) as char else c
  }

  function UpperChar(c: char): char {
    if 'a' <= c <= 'z' then (c as int - 32) as char else c
  }

  function ToLower(s: string): string {
    seq(|s|, i requires 0 <= i < |s| => LowerChar(s[i]))
  }

  function ToUpper(s: string): string {
    seq(|s|, i requires 0 <= i < |s| => UpperChar(s[i]))
  }

  /** Lower-casing forgets a prior upper-casing. */
  lemma LowerOfUpper(s: string)
    ensures ToLower(ToUpper(s)) == ToLower(s)
  {
    forall i | 0 <= i < |s|
      ensures LowerChar(UpperChar(s[i])) == LowerChar(s[i])
    {
    }
  }

  /** `ToUpper` changes exactly the lower-case ASCII letters, each to its capital. */
  lemma UpperCharIffLetter(c: char)
    ensures UpperChar(c) != c <==> 'a' <= c <= 'z'
    ensures 'a' <= c <= 'z' ==> 'A' <= UpperChar(c) <= 'Z' && LowerChar(UpperChar(c)) == c
  {
  }

  // ---------------------------------------------------------------------------
  // Number to decimal string (template literal `${n}` of a non-negative integer)
  // ---------------------------------------------------------------------------

  function DigitChar(d: nat): char
    requires d < 10
  {
    "0123456789"[d]
  }

  function DigitValue(c: char): nat {
    if '0' <= c <= '9' then c as int - '0' as int else 0
  }

  /** The decimal numeral of `n`, without leading zeros. */
  function NatToString(n: nat): (r: string)
    ensures |r| >= 1
    decreases n
  {
    if n < 10 then [DigitChar(n)] else NatToString(n / 10) + [DigitChar(n % 10)]
  }

  /** The value of a string of decimal digits. */
  function ParseDecimal(s: string): nat
    decreases |s|
  {
    if s == [] then 0 else ParseDecimal(s[..|s| - 1]) * 10 + DigitValue(s[|s| - 1])
  }

  /** Parsing a numeral gives back its number. */
  lemma {:induction false} ParseNatToString(n: nat)
    ensures ParseDecimal(NatToString(n)) == n
    decreases n
  {
    if n >= 10 {
      ParseNatToString(n / 10);
      var s := NatToString(n);
      assert s[..|s| - 1] == NatToString(n / 10);
    }
  }

  /** Different numbers have different numerals. */
  lemma NatToStringInjective(a: nat, b: nat)
    ensures NatToString(a) == NatToString(b) ==> a == b
  {
    ParseNatToString(a);
    ParseNatToString(b);
  }

  // ---------------------------------------------------------------------------
  // encodeURIComponent: percent-encoding of the UTF-8 bytes
  // ---------------------------------------------------------------------------

  /** The characters `encodeURIComponent` leaves as they are. */
  predicate IsUnreserved(c: char) {
    ('A' <= c <= 'Z') || ('a' <= c <= 'z') || ('0' <= c <= '9') ||
    c == '-' || c == '_' || c == '.' || c == '!' || c == '~' || c == '*' ||
    c == '\'' || c == '(' || c == ')'
  }

  type Byte = b: int | 0 <= b < 256

  /** The UTF-8 encoding of one Unicode scalar value. */
  function Utf8(c: char): (bytes: seq<Byte>)
    ensures 1 <= |bytes| <= 4
  {
    var n := c as int;
    if n < 0x80 then [n]
    else if n < 0x800 then [0xC0 + n / 64, 0x80 + n % 64]
    else if n < 0x1_0000 then [0xE0 + n / 4096, 0x80 + (n / 64) % 64, 0x80 + n % 64]
    else [0xF0 + n / 262144, 0x80 + (n / 4096) % 64, 0x80 + (n / 64) % 64, 0x80 + n % 64]
  }

  /** Upper-case hexadecimal digit, as `encodeURIComponent` writes them. */
  function HexDigit(d: nat): char
    requires d < 16
  {
    "0123456789ABCDEF"[d]
  }

  /** The value of a hexadecimal digit of either case. */
  function HexValue(c: char): Option<nat> {
    if '0' <= c <= '9' then Some(c as int - '0' as int)
    else if 'A' <= c <= 'F' then Some(c as int - 'A' as int + 10)
    else if 'a' <= c <= 'f' then Some(c as int - 'a' as int + 10)
    else None
  }

  /** `%XX` for each byte. */
  function EscapeBytes(bytes: seq<Byte>): (r: string)
    ensures |r| == 3 * |bytes|
    decreases |bytes|
  {
    if bytes == [] then []
    else ['%', HexDigit(bytes[0] / 16), HexDigit(bytes[0] % 16)] + EscapeBytes(bytes[1..])
  }

  function EncodeChar(c: char): string {
    if IsUnreserved(c) then [c] else EscapeBytes(Utf8(c))
  }

  /** `encodeURIComponent(s)` for a string of Unicode scalar values. */
  function PercentEncode(s: string): string
    decreases |s|
  {
    if s == [] then [] else EncodeChar(s[0]) + PercentEncode(s[1..])
  }

  /** `s` with each character replaced by its image under `f`, in order. */
  function ConcatMap(s: string, f: char -> string): string
    decreases |s|
  {
    if s == [] then [] else f(s[0]) + ConcatMap(s[1..], f)
  }

  lemma {:induction false} ConcatMapAppend(a: string, b: string, f: char -> string)
    ensures ConcatMap(a + b, f) == ConcatMap(a, f) + ConcatMap(b, f)
    decreases |a|
  {
    if a != [] {
      ConcatMapAppend(a[1..], b, f);
      assert (a + b)[1..] == a[1..] + b;
    } else {
      assert a + b == b;
    }
  }

  /** Encoding replaces each character by its escape. */
  lemma {:induction false} PercentEncodeMaps(s: string)
    ensures PercentEncode(s) == ConcatMap(s, EncodeChar)
    decreases |s|
  {
    if s != [] {
      PercentEncodeMaps(s[1..]);
    }
  }

  /** Encoding works character by character, so it distributes over concatenation. */
  lemma PercentEncodeAppend(a: string, b: string)
    ensures PercentEncode(a + b) == PercentEncode(a) + PercentEncode(b)
  {
    PercentEncodeMaps(a + b);
    PercentEncodeMaps(a);
    PercentEncodeMaps(b);
    ConcatMapAppend(a, b, EncodeChar);
  }

  /** A string of unreserved characters is left as it is. */
  lemma {:induction false} PercentEncodeUnreservedIdentity(s: string)
    requires forall i | 0 <= i < |s| :: IsUnreserved(s[i])
    ensures PercentEncode(s) == s
    decreases |s|
  {
    if s != [] {
      PercentEncodeUnreservedIdentity(s[1..]);
      assert s == [s[0]] + s[1..];
    }
  }

  /** A space is escaped as `%20`. */
  lemma SpaceEncoding()
    ensures EncodeChar(' ') == "%20"
  {
    assert Utf8(' ') == [32];
    assert EscapeBytes([32]) == ['%', HexDigit(2), HexDigit(0)] + EscapeBytes([]);
  }

  /** The characters that can appear in an encoded string: the unreserved ones and `%`. */
  predicate IsUriComponentChar(c: char) {
    IsUnreserved(c) || c == '%'
  }

  /** The characters of an escape: `%` and the upper-case hexadecimal digits. */
  predicate IsEscapeChar(c: char) {
    c == '%' || ('0' <= c <= '9') || ('A' <= c <= 'F')
  }

  /** A hexadecimal digit is a decimal digit or an upper-case `A` to `F`. */
  lemma HexDigitAlphabet(d: nat)
    requires d < 16
    ensures IsEscapeChar(HexDigit(d)) && HexDigit(d) != '%'
  {
    var digits := "0123456789ABCDEF";
    assert forall i | 0 <= i < 16 :: ('0' <= digits[i] <= '9') || ('A' <= digits[i] <= 'F');
  }

  /** Escapes are written with `%` and upper-case hexadecimal digits only. */
  lemma {:induction false} EscapeBytesAlphabet(bytes: seq<Byte>)
    ensures forall k | 0 <= k < |EscapeBytes(bytes)| :: IsEscapeChar(EscapeBytes(bytes)[k])
    decreases |bytes|
  {
    if bytes != [] {
      EscapeBytesAlphabet(bytes[1..]);
      HexDigitAlphabet(bytes[0] / 16);
      HexDigitAlphabet(bytes[0] % 16);
      var head := ['%', HexDigit(bytes[0] / 16), HexDigit(bytes[0] % 16)];
      assert EscapeBytes(bytes) == head + EscapeBytes(bytes[1..]);
    }
  }

  /** The encoding is written over the unreserved characters, `%` and hexadecimal digits only. */
  lemma {:induction false} PercentEncodeAlphabet(s: string)
    ensures forall k | 0 <= k < |PercentEncode(s)| :: IsUriComponentChar(PercentEncode(s)[k])
    decreases |s|
  {
    if s != [] {
      PercentEncodeAlphabet(s[1..]);
      if !IsUnreserved(s[0]) {
        EscapeBytesAlphabet(Utf8(s[0]));
      }
      var e := EncodeChar(s[0]);
      assert PercentEncode(s) == e + PercentEncode(s[1..]);
      forall k | 0 <= k < |PercentEncode(s)|
        ensures IsUriComponentChar(PercentEncode(s)[k])
      {
        if k < |e| {
          assert PercentEncode(s)[k] == e[k];
        } else {
          assert PercentEncode(s)[k] == PercentEncode(s[1..])[k - |e|];
        }
      }
    }
  }

  /** A space never survives encoding. */
  lemma PercentEncodeNoSpace(s: string)
    ensures ' ' !in PercentEncode(s)
  {
    PercentEncodeAlphabet(s);
    var e := PercentEncode(s);
    assert forall k | 0 <= k < |e| :: e[k] != ' ';
  }

  // --- decodeURIComponent, the inverse used to state what encoding preserves ---

  /** The byte written as `%HH` at position `i` of `s`, if there is one. */
  function ByteAt(s: string, i: nat): Option<int> {
    if i + 3 <= |s| && s[i] == '%' then
      match (HexValue(s[i + 1]), HexValue(s[i + 2]))
      case (Some(hi), Some(lo)) => Some(hi * 16 + lo)
      case _ => None
    else None
  }

  /** The low six bits of a continuation byte `%HH` at position `i`. */
  function ContinuationAt(s: string, i: nat): Option<int> {
    match ByteAt(s, i)
    case Some(b) => if 0x80 <= b < 0xC0 then Some(b - 0x80) else None
    case None => None
  }

  /** The character whose scalar value is `n`, when `n` is one and not below `min`. */
  function ScalarAtLeast(n: int, min: int): Option<char> {
    if min <= n && ((0 <= n < 0xD800) || (0xE000 <= n < 0x11_0000)) then Some(n as char) else None
  }

  /** Decodes the escaped UTF-8 sequence opening `s`: the character and the length consumed. */
  function DecodeEscape(s: string): (r: Option<(char, nat)>)
    ensures r.Some? ==> 3 <= r.value.1 <= |s|
  {
    match ByteAt(s, 0)
    case None => None
    case Some(b0) =>
      if b0 < 0x80 then Some((b0 as char, 3))
      else if 0xC0 <= b0 < 0xE0 then
        match ContinuationAt(s, 3)
        case None => None
        case Some(c1) =>
          match ScalarAtLeast((b0 - 0xC0) * 64 + c1, 0x80)
          case None => None
          case Some(ch) => Some((ch, 6))
      else if 0xE0 <= b0 < 0xF0 then
        match (ContinuationAt(s, 3), ContinuationAt(s, 6))
        case (Some(c1), Some(c2)) =>
          (match ScalarAtLeast((b0 - 0xE0) * 4096 + c1 * 64 + c2, 0x800)
           case None => None
           case Some(ch) => Some((ch, 9)))
        case _ => None
      else if 0xF0 <= b0 < 0xF8 then
        match (ContinuationAt(s, 3), ContinuationAt(s, 6), ContinuationAt(s, 9))
        case (Some(c1), Some(c2), Some(c3)) =>
          (match ScalarAtLeast((b0 - 0xF0) * 262144 + c1 * 4096 + c2 * 64 + c3, 0x1_0000)
           case None => None
           case Some(ch) => Some((ch, 12)))
        case _ => None
      else None
  }

  /** `decodeURIComponent(s)`; `None` where it would throw a URIError. */
  function PercentDecode(s: string): Option<string>
    decreases |s|
  {
    if s == [] then Some([])
    else
      var head := if s[0] == '%' then DecodeEscape(s) else Some((s[0], 1));
      match head
      case None => None
      case Some((c, k)) =>
        match PercentDecode(s[k..])
        case None => None
        case Some(t) => Some([c] + t)
  }

  lemma HexRoundTrip(d: nat)
    requires d < 16
    ensures HexValue(HexDigit(d)) == Some(d)
  {
  }

  /** The `k`-th byte is escaped at positions `3 k`, `3 k + 1` and `3 k + 2`. */
  lemma {:induction false} EscapeBytesAt(bytes: seq<Byte>, k: nat)
    requires k < |bytes|
    ensures var e := EscapeBytes(bytes);
      e[3 * k] == '%' && e[3 * k + 1] == HexDigit(bytes[k] / 16) && e[3 * k + 2] == HexDigit(bytes[k] % 16)
    decreases k
  {
    if k > 0 {
      EscapeBytesAt(bytes[1..], k - 1);
      var head := ['%', HexDigit(bytes[0] / 16), HexDigit(bytes[0] % 16)];
      var e' := EscapeBytes(bytes[1..]);
      assert EscapeBytes(bytes) == head + e';
      assert bytes[1..][k - 1] == bytes[k];
    }
  }

  /** The `k`-th escaped byte can be read back at position `3 k`, whatever follows. */
  lemma ByteAtEscaped(bytes: seq<Byte>, t: string, k: nat)
    requires k < |bytes|
    ensures ByteAt(EscapeBytes(bytes) + t, 3 * k) == Some(bytes[k])
  {
    var e := EscapeBytes(bytes);
    var s := e + t;
    EscapeBytesAt(bytes, k);
    var i := 3 * k;
    assert i + 3 <= |e|;
    assert s[i] == e[i] && s[i + 1] == e[i + 1] && s[i + 2] == e[i + 2];
    ByteAtHex(s, i, bytes[k]);
  }

  /** `%HH` with the two hexadecimal digits of `b` reads back as `b`. */
  lemma ByteAtHex(s: string, i: nat, b: Byte)
    requires i + 3 <= |s| && s[i] == '%'
    requires s[i + 1] == HexDigit(b / 16) && s[i + 2] == HexDigit(b % 16)
    ensures ByteAt(s, i) == Some(b)
  {
    HexRoundTrip(b / 16);
    HexRoundTrip(b % 16);
    assert HexValue(s[i + 1]) == Some(b / 16);
    assert HexValue(s[i + 2]) == Some(b % 16);
  }

  /** The scalar value is rebuilt from its three-byte encoding. */
  lemma Utf8ThreeBytes(n: int)
    requires 0 <= n
    ensures (n / 4096) * 4096 + ((n / 64) % 64) * 64 + n % 64 == n
  {
    var q := n / 64;
    assert n == q * 64 + n % 64;
    assert q == (q / 64) * 64 + q % 64;
    assert n / 4096 == q / 64;
  }

  /** The scalar value is rebuilt from its four-byte encoding. */
  lemma Utf8FourBytes(n: int)
    requires 0 <= n
    ensures (n / 262144) * 262144 + ((n / 4096) % 64) * 4096 + ((n / 64) % 64) * 64 + n % 64 == n
  {
    var q := n / 64;
    var r := q / 64;
    assert n == q * 64 + n % 64;
    assert q == r * 64 + q % 64;
    assert r == (r / 64) * 64 + r % 64;
    assert n / 4096 == r;
    assert n / 262144 == r / 64;
  }

  lemma DecodeTwoBytes(s: string, n: int)
    requires 0x80 <= n < 0x800
    requires ByteAt(s, 0) == Some(0xC0 + n / 64) && ByteAt(s, 3) == Some(0x80 + n % 64)
    ensures DecodeEscape(s) == Some((n as char, 6))
  {
    assert ContinuationAt(s, 3) == Some(n % 64);
    assert (n / 64) * 64 + n % 64 == n;
  }

  lemma DecodeThreeBytes(s: string, n: int)
    requires 0x800 <= n < 0x1_0000 && (n < 0xD800 || 0xE000 <= n)
    requires ByteAt(s, 0) == Some(0xE0 + n / 4096)
    requires ByteAt(s, 3) == Some(0x80 + (n / 64) % 64) && ByteAt(s, 6) == Some(0x80 + n % 64)
    ensures DecodeEscape(s) == Some((n as char, 9))
  {
    Utf8ThreeBytes(n);
    assert ContinuationAt(s, 3) == Some((n / 64) % 64);
    assert ContinuationAt(s, 6) == Some(n % 64);
  }

  lemma DecodeFourBytes(s: string, n: int)
    requires 0x1_0000 <= n < 0x11_0000
    requires ByteAt(s, 0) == Some(0xF0 + n / 262144) && ByteAt(s, 3) == Some(0x80 + (n / 4096) % 64)
    requires ByteAt(s, 6) == Some(0x80 + (n / 64) % 64) && ByteAt(s, 9) == Some(0x80 + n % 64)
    ensures DecodeEscape(s) == Some((n as char, 12))
  {
    Utf8FourBytes(n);
    assert ContinuationAt(s, 3) == Some((n / 4096) % 64);
    assert ContinuationAt(s, 6) == Some((n / 64) % 64);
    assert ContinuationAt(s, 9) == Some(n % 64);
  }

  /** Decoding the escape of one character gives the character back and consumes all of it. */
  lemma DecodeEscapeChar(c: char, t: string)
    ensures DecodeEscape(EscapeBytes(Utf8(c)) + t) == Some((c, 3 * |Utf8(c)|))
  {
    var n := c as int;
    if n < 0x80 {
      DecodeEscapeOne(c, t);
    } else if n < 0x800 {
      DecodeEscapeTwo(c, t);
    } else if n < 0x1_0000 {
      DecodeEscapeThree(c, t);
    } else {
      DecodeEscapeFour(c, t);
    }
  }

  lemma DecodeEscapeOne(c: char, t: string)
    requires c as int < 0x80
    ensures DecodeEscape(EscapeBytes(Utf8(c)) + t) == Some((c, 3))
  {
    var bytes := Utf8(c);
    ByteAtEscaped(bytes, t, 0);
  }

  lemma DecodeEscapeTwo(c: char, t: string)
    requires 0x80 <= c as int < 0x800
    ensures DecodeEscape(EscapeBytes(Utf8(c)) + t) == Some((c, 6))
  {
    var n := c as int;
    var bytes := Utf8(c);
    assert bytes == [0xC0 + n / 64, 0x80 + n % 64];
    ByteAtEscaped(bytes, t, 0);
    ByteAtEscaped(bytes, t, 1);
    DecodeTwoBytes(EscapeBytes(bytes) + t, n);
  }

  lemma DecodeEscapeThree(c: char, t: string)
    requires 0x800 <= c as int < 0x1_0000
    ensures DecodeEscape(EscapeBytes(Utf8(c)) + t) == Some((c, 9))
  {
    var n := c as int;
    var bytes := Utf8(c);
    assert bytes == [0xE0 + n / 4096, 0x80 + (n / 64) % 64, 0x80 + n % 64];
    ByteAtEscaped(bytes, t, 0);
    ByteAtEscaped(bytes, t, 1);
    ByteAtEscaped(bytes, t, 2);
    DecodeThreeBytes(EscapeBytes(bytes) + t, n);
  }

  lemma DecodeEscapeFour(c: char, t: string)
    requires 0x1_0000 <= c as int
    ensures DecodeEscape(EscapeBytes(Utf8(c)) + t) == Some((c, 12))
  {
    var n := c as int;
    var bytes := Utf8(c);
    assert bytes == [0xF0 + n / 262144, 0x80 + (n / 4096) % 64, 0x80 + (n / 64) % 64, 0x80 + n % 64];
    ByteAtEscaped(bytes, t, 0);
    ByteAtEscaped(bytes, t, 1);
    ByteAtEscaped(bytes, t, 2);
    ByteAtEscaped(bytes, t, 3);
    DecodeFourBytes(EscapeBytes(bytes) + t, n);
  }

  /** Decoding undoes the encoding of one character, whatever follows it. */
  lemma DecodeEncodeChar(c: char, t: string)
    ensures PercentDecode(EncodeChar(c) + t) ==
      match PercentDecode(t) case None => None case Some(u) => Some([c] + u)
  {
    var s := EncodeChar(c) + t;
    if IsUnreserved(c) {
      assert s[0] == c && s[1..] == t;
    } else {
      DecodeEscapeChar(c, t);
      assert s[0] == '%';
      assert s[3 * |Utf8(c)|..] == t;
    }
  }

  /** `decodeURIComponent(encodeURIComponent(s)) == s`. */
  lemma {:induction false} PercentRoundTrip(s: string)
    ensures PercentDecode(PercentEncode(s)) == Some(s)
    decreases |s|
  {
    if s != [] {
      PercentRoundTrip(s[1..]);
      DecodeEncodeChar(s[0], PercentEncode(s[1..]));
      assert s == [s[0]] + s[1..];
    }
  }

  /** Percent-encoding is injective: different strings have different encodings. */
  lemma PercentEncodeInjective(s: string, t: string)
    ensures PercentEncode(s) == PercentEncode(t) ==> s == t
  {
    PercentRoundTrip(s);
    PercentRoundTrip(t);
  }
}
