/**
 * The plugin's string renderings: `arrayToString`'s hex dump
 * (MockDrmCryptoPlugin.cpp:344-352), the `%d` rendering of the license type
 * (:128-129) and the `mock-optparams` serialisation (:132-137).
 */
module Format {
  import opened DrmTypes

  // ---------------------------------------------------------------------
  // Hex dump: "{ " then "0x%02x " per byte, then "}"
  // ---------------------------------------------------------------------

  /** A lower-case hexadecimal digit, as `%x` prints it. */
  function HexDigit(d: nat): (c: char)
    requires d < 16
  {
    if d < 10 then ('0' as int + d) as char else ('a' as int + d - 10) as char
  }

  function HexDigitValue(c: char): Option<nat>
  {
    if '0' <= c <= '9' then Some(c as int - '0' as int)
    else if 'a' <= c <= 'f' then Some(c as int - 'a' as int + 10)
    else None
  }

  /** `%02x` of one byte: always two digits, high nibble first. */
  function Hex2(b: byte): string
  {
    [HexDigit(b as int / 16), HexDigit(b as int % 16)]
  }

  /** Reads back the two digits `%02x` printed. */
  function ParseHex2(s: string): Option<byte>
  {
    if |s| != 2 then None
    else match (HexDigitValue(s[0]), HexDigitValue(s[1]))
      case (Some(hi), Some(lo)) =>
        if hi < 16 && lo < 16 then Some((hi * 16 + lo) as byte) else None
      case _ => None
  }

  lemma Hex2RoundTrip(b: byte)
    ensures ParseHex2(Hex2(b)) == Some(b)
  {
  }

  /** The text one byte contributes to the dump. */
  function Cell(b: byte): string
  {
    "0x" + Hex2(b) + " "
  }

  /** The cells of a byte sequence, in order. */
  function HexCells(a: seq<byte>): string
    decreases |a|
  {
    if a == [] then "" else HexCells(a[..|a| - 1]) + Cell(a[|a| - 1])
  }

  /** What `arrayToString` returns for the bytes a. */
  function ArrayFormat(a: seq<byte>): string
  {
    "{ " + HexCells(a) + "}"
  }

  /** Each byte occupies five characters. */
  lemma {:induction false} HexCellsLength(a: seq<byte>)
    ensures |HexCells(a)| == 5 * |a|
    decreases |a|
  {
    if a != [] {
      HexCellsLength(a[..|a| - 1]);
    }
  }

  /** The i-th byte's cell starts at offset 5 * i. */
  lemma {:induction false} HexCellsAt(a: seq<byte>, i: nat)
    requires i < |a|
    ensures |HexCells(a)| == 5 * |a|
    ensures HexCells(a)[5 * i .. 5 * i + 5] == Cell(a[i])
    decreases |a|
  {
    HexCellsLength(a);
    var n := |a|;
    var init := a[..n - 1];
    HexCellsLength(init);
    assert HexCells(a) == HexCells(init) + Cell(a[n - 1]);
    if i < n - 1 {
      HexCellsAt(init, i);
      assert HexCells(a)[5 * i .. 5 * i + 5] == HexCells(init)[5 * i .. 5 * i + 5];
    }
  }

  /** Position of byte i in the rendered dump, and the dump's length. */
  lemma ArrayFormatAt(a: seq<byte>, i: nat)
    requires i < |a|
    ensures |ArrayFormat(a)| == 5 * |a| + 3
    ensures ArrayFormat(a)[5 * i + 2 .. 5 * i + 7] == Cell(a[i])
  {
    HexCellsLength(a);
    HexCellsAt(a, i);
    assert ArrayFormat(a)[5 * i + 2 .. 5 * i + 7] == HexCells(a)[5 * i .. 5 * i + 5];
  }

  /** The dump loses nothing: distinct byte sequences render differently. */
  lemma ArrayFormatInjective(a: seq<byte>, b: seq<byte>)
    requires ArrayFormat(a) == ArrayFormat(b)
    ensures a == b
  {
    HexCellsLength(a);
    HexCellsLength(b);
    assert |a| == |b|;
    forall i | 0 <= i < |a|
      ensures a[i] == b[i]
    {
      ArrayFormatAt(a, i);
      ArrayFormatAt(b, i);
      assert Cell(a[i])[2..4] == Hex2(a[i]) && Cell(b[i])[2..4] == Hex2(b[i]);
      Hex2RoundTrip(a[i]);
      Hex2RoundTrip(b[i]);
    }
  }

  /** `arrayToString`: the loop at :346-351, one cell appended per byte. */
  method ArrayToString(a: seq<byte>) returns (r: string)
    ensures r == ArrayFormat(a)
  {
    r := "{ ";
    for i := 0 to |a|
      invariant r == "{ " + HexCells(a[..i])
    {
      assert a[..i + 1][..i] == a[..i];
      r := r + "0x" + Hex2(a[i]) + " ";
    }
    assert a[..|a|] == a;
    r := r + "}";
  }

  // ---------------------------------------------------------------------
  // `%d` of an int
  // ---------------------------------------------------------------------

  function DigitChar(d: nat): char
    requires d < 10
  {
    ('0' as int + d) as char
  }

  predicate IsDigit(c: char)
  {
    '0' <= c <= '9'
  }

  /** Decimal digits of n, most significant first, no leading zeros. */
  function NatDecimal(n: nat): string
    decreases n
  {
    if n < 10 then [DigitChar(n)] else NatDecimal(n / 10) + [DigitChar(n % 10)]
  }

  predicate AllDigits(s: string)
  {
    forall i :: 0 <= i < |s| ==> IsDigit(s[i])
  }

  /**
   * `%d`: a leading '-' exactly for negative values, then the decimal digits
   * of the magnitude, with no leading zero unless the value is zero.
   */
  function Decimal(n: int): (r: string)
    ensures r != [] && (r[0] == '-' <==> n < 0)
    ensures var digits := if n < 0 then r[1..] else r;
      digits != [] && AllDigits(digits) && (digits[0] == '0' ==> n == 0)
  {
    if n < 0 then
      NatDecimalRoundTrip(-n);
      assert ("-" + NatDecimal(-n))[1..] == NatDecimal(-n);
      "-" + NatDecimal(-n)
    else
      NatDecimalRoundTrip(n);
      NatDecimal(n)
  }

  function ParseNat(s: string): nat
    requires AllDigits(s)
    decreases |s|
  {
    if s == [] then 0
    else
      assert IsDigit(s[|s| - 1]);
      ParseNat(s[..|s| - 1]) * 10 + (s[|s| - 1] as int - '0' as int)
  }

  /** Reads back a `%d` rendering. */
  function ParseDecimal(s: string): Option<int>
  {
    if |s| > 1 && s[0] == '-' && AllDigits(s[1..]) then Some(0 - ParseNat(s[1..]))
    else if s != [] && AllDigits(s) then Some(ParseNat(s))
    else None
  }

  lemma {:induction false} NatDecimalRoundTrip(n: nat)
    ensures NatDecimal(n) != []
    ensures AllDigits(NatDecimal(n))
    ensures ParseNat(NatDecimal(n)) == n
    ensures NatDecimal(n)[0] == '0' ==> n == 0
    decreases n
  {
    if n >= 10 {
      NatDecimalRoundTrip(n / 10);
      var s := NatDecimal(n);
      assert s[..|s| - 1] == NatDecimal(n / 10);
    }
  }

  /** The license type written to `mock-licensetype` reads back as the same number. */
  lemma DecimalRoundTrip(n: int)
    ensures ParseDecimal(Decimal(n)) == Some(n)
  {
    var m: nat := if n < 0 then -n else n;
    var digits := NatDecimal(m);
    NatDecimalRoundTrip(m);
    if n < 0 {
      assert Decimal(n) == "-" + digits;
      assert Decimal(n)[1..] == digits;
    } else {
      assert Decimal(n) == digits;
      assert IsDigit(digits[0]);
    }
  }

  // ---------------------------------------------------------------------
  // `mock-optparams`: "{k0,v0},{k1,v1},..." in index order, no escaping
  // ---------------------------------------------------------------------

  /**
   * What `%s` prints of a string: the characters before its first NUL
   * (`String8::string()` hands out a NUL-terminated buffer).
   */
  function CStr(s: string): (r: string)
    ensures r <= s && '\0' !in r
    ensures |r| < |s| ==> s[|r|] == '\0'
    decreases |s|
  {
    if s == [] || s[0] == '\0' then [] else [s[0]] + CStr(s[1..])
  }

  /** A string without NUL prints whole. */
  lemma {:induction false} CStrNoNul(s: string)
    requires '\0' !in s
    ensures CStr(s) == s
    decreases |s|
  {
    if s != [] {
      assert '\0' !in s[1..] by {
        forall i | 0 <= i < |s| - 1
          ensures s[1..][i] != '\0'
        {
          assert s[1..][i] == s[i + 1];
        }
      }
      CStrNoNul(s[1..]);
      assert s == [s[0]] + s[1..];
    }
  }

  /** One key/value pair of the optional parameters, rendered by `{%s,%s}`. */
  function Entry(p: (string, string)): string
  {
    "{" + CStr(p.0) + "," + CStr(p.1) + "}"
  }

  /**
   * The serialisation the loop at :133-137 builds: each entry is preceded by
   * a comma except the first.  It is empty exactly when there are no
   * parameters, and otherwise starts with '{' and ends with '}'.
   */
  function OptParams(ps: seq<(string, string)>): (r: string)
    ensures r == "" <==> ps == []
    ensures ps != [] ==> r[0] == '{' && r[|r| - 1] == '}'
    decreases |ps|
  {
    if ps == [] then ""
    else OptParams(ps[..|ps| - 1]) + (if |ps| > 1 then "," else "") + Entry(ps[|ps| - 1])
  }

  /** The params builder loop (:132-137), appending one entry per index. */
  method BuildOptParams(ps: seq<(string, string)>) returns (params: string)
    ensures params == OptParams(ps)
  {
    params := "";
    var i := 0;
    while i < |ps|
      invariant 0 <= i <= |ps|
      invariant params == OptParams(ps[..i])
    {
      assert ps[..i + 1] == ps[..i] + [ps[i]];
      if i == 0 {
        OptParamsSingle(ps[0]);
        assert "" + "" + Entry(ps[0]) == Entry(ps[0]);
      } else {
        OptParamsSnoc(ps[..i], ps[i]);
      }
      params := params + (if i > 0 then "," else "") + Entry(ps[i]);
      i := i + 1;
    }
    assert ps[..i] == ps;
  }

  /** A single parameter renders as its entry alone. */
  lemma OptParamsSingle(p: (string, string))
    ensures OptParams([p]) == Entry(p)
  {
    assert [p][..0] == [];
  }

  /** Appending a parameter appends a comma and its entry. */
  lemma OptParamsSnoc(ps: seq<(string, string)>, q: (string, string))
    requires ps != []
    ensures OptParams(ps + [q]) == OptParams(ps) + "," + Entry(q)
  {
    var all := ps + [q];
    assert all[..|all| - 1] == ps && all[|all| - 1] == q;
  }

  /** Read front to back: the first entry, then a comma and the rest. */
  lemma {:induction false} OptParamsCons(p: (string, string), ps: seq<(string, string)>)
    ensures OptParams([p] + ps) == Entry(p) + (if ps == [] then "" else "," + OptParams(ps))
    decreases |ps|
  {
    if ps == [] {
      assert [p] + ps == [p];
      OptParamsSingle(p);
    } else {
      var init, last := ps[..|ps| - 1], ps[|ps| - 1];
      assert [p] + ps == ([p] + init) + [last];
      assert ps == init + [last];
      OptParamsSnoc([p] + init, last);
      if init == [] {
        assert [p] + init == [p];
        OptParamsSingle(p);
        OptParamsSingle(last);
        CommaRegroup(Entry(p), Entry(last));
      } else {
        OptParamsCons(p, init);
        OptParamsSnoc(init, last);
        CommaAssoc(Entry(p), OptParams(init), Entry(last));
      }
    }
  }

  /* Regrouping comma-joined texts; kept apart so that the entries stay folded. */

  lemma CommaRegroup(head: string, tail: string)
    ensures head + "," + tail == head + ("," + tail)
  {
  }

  lemma CommaAssoc(head: string, mid: string, tail: string)
    ensures head + ("," + mid) + "," + tail == head + ("," + (mid + "," + tail))
  {
  }

  /** Index of the first c in s, or |s| when there is none. */
  function IndexOf(s: string, c: char): (i: nat)
    ensures i <= |s|
    ensures i < |s| ==> s[i] == c
    ensures forall j :: 0 <= j < i ==> s[j] != c
    decreases |s|
  {
    if s == [] then 0 else if s[0] == c then 0 else 1 + IndexOf(s[1..], c)
  }

  /** Parses one leading "{k,v}": the key ends at the first ',', the value at the next '}'. */
  function ParseEntry(s: string): (r: Option<((string, string), string)>)
    ensures r.Some? ==> |r.value.1| < |s|
  {
    if s == [] || s[0] != '{' then None
    else
      var t := s[1..];
      var i := IndexOf(t, ',');
      if i == |t| then None
      else
        var u := t[i + 1..];
        var j := IndexOf(u, '}');
        if j == |u| then None
        else Some(((t[..i], u[..j]), u[j + 1..]))
  }

  /** Parses a nonempty "{k,v},{k,v}..." text. */
  function ParseEntries(s: string): Option<seq<(string, string)>>
    decreases |s|
  {
    match ParseEntry(s)
    case None => None
    case Some((p, rest)) =>
      if rest == [] then Some([p])
      else if rest[0] != ',' then None
      else match ParseEntries(rest[1..])
        case None => None
        case Some(ps) => Some([p] + ps)
  }

  function ParseOptParams(s: string): Option<seq<(string, string)>>
  {
    if s == [] then Some([]) else ParseEntries(s)
  }

  /**
   * Keys hold no ',' and values no '}', and neither holds a NUL: the texts
   * the serialisation neither confuses nor truncates.
   */
  predicate Unambiguous(ps: seq<(string, string)>)
  {
    forall i :: 0 <= i < |ps| ==>
      ',' !in ps[i].0 && '}' !in ps[i].1 && '\0' !in ps[i].0 && '\0' !in ps[i].1
  }

  lemma IndexOfFirst(x: string, c: char, y: string)
    requires c !in x
    ensures IndexOf(x + [c] + y, c) == |x|
  {
    var s := x + [c] + y;
    assert s[|x|] == c;
  }

  lemma {:induction false} OptParamsRoundTrip(ps: seq<(string, string)>)
    requires Unambiguous(ps)
    ensures ParseOptParams(OptParams(ps)) == Some(ps)
    decreases |ps|
  {
    if ps != [] {
      ParseEntriesOfOptParams(ps);
    }
  }

  /** Parsing one leading "{k,v}" entry gives back k, v and what follows. */
  lemma ParseEntryOf(k: string, v: string, rest: string)
    requires ',' !in k && '}' !in v
    ensures ParseEntry("{" + k + "," + v + "}" + rest) == Some(((k, v), rest))
  {
    var s := "{" + k + "," + v + "}" + rest;
    var t := s[1..];
    assert t == k + [','] + (v + "}" + rest);
    IndexOfFirst(k, ',', v + "}" + rest);
    assert t[..|k|] == k;
    var u := t[|k| + 1..];
    assert u == v + ['}'] + rest;
    IndexOfFirst(v, '}', rest);
    assert u[..|v|] == v;
    assert u[|v| + 1..] == rest;
  }

  lemma {:induction false} ParseEntriesOfOptParams(ps: seq<(string, string)>)
    requires ps != [] && Unambiguous(ps)
    ensures ParseEntries(OptParams(ps)) == Some(ps)
    decreases |ps|
  {
    var p, tail := ps[0], ps[1..];
    assert ps == [p] + tail;
    OptParamsCons(p, tail);
    CStrNoNul(p.0);
    CStrNoNul(p.1);
    var rest := if tail == [] then "" else "," + OptParams(tail);
    assert OptParams(ps) == "{" + p.0 + "," + p.1 + "}" + rest;
    ParseEntryOf(p.0, p.1, rest);
    assert p == (p.0, p.1);
    if tail == [] {
      assert ParseEntries(OptParams(ps)) == Some([p]);
      assert ps == [p];
    } else {
      assert Unambiguous(tail) by {
        forall i | 0 <= i < |tail|
          ensures ',' !in tail[i].0 && '}' !in tail[i].1 && '\0' !in tail[i].0 && '\0' !in tail[i].1
        {
          assert tail[i] == ps[i + 1];
        }
      }
      ParseEntriesOfOptParams(tail);
      assert rest[0] == ',' && rest[1..] == OptParams(tail);
      assert ParseEntries(OptParams(ps)) == Some([p] + tail);
    }
  }

  /** `%s` stops at a NUL: the rest of a key or value is dropped. */
  lemma OptParamsStopsAtNul()
    ensures OptParams([("a\0b", "1")]) == "{a,1}"
  {
    assert CStr("a\0b") == "a";
    CStrNoNul("1");
  }

  /** No escaping: a ',' inside a key is indistinguishable from the separator. */
  lemma OptParamsNotEscaped()
    ensures OptParams([("a,b", "c")]) == OptParams([("a", "b,c")]) == "{a,b,c}"
  {
    CStrNoNul("a,b");
    CStrNoNul("c");
    CStrNoNul("a");
    CStrNoNul("b,c");
    assert Entry(("a,b", "c")) == "{a,b,c}";
    assert Entry(("a", "b,c")) == "{a,b,c}";
    OptParamsSingle(("a,b", "c"));
    OptParamsSingle(("a", "b,c"));
  }
}
