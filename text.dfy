/** The string operations the service and its errors use to build SQL text
    and messages: `str.join`, `str.replace('\n', '')`, `'{}'.format` of an
    integer, and the `%s` markers the database driver binds parameters to. */
module Text {

  import opened Values

  /** `sep.join(parts)` */
  function Join(sep: string, parts: seq<string>): string
  {
    if |parts| == 0 then ""
    else if |parts| == 1 then parts[0]
    else parts[0] + sep + Join(sep, parts[1..])
  }

  /** `s.split(', ')`, the inverse of `', '.join` on parts without a comma. */
  function SplitOnComma(s: string): (parts: seq<string>)
    ensures |parts| >= 1
  {
    if |s| == 0 then [""]
    else if |s| >= 2 && s[0] == ',' && s[1] == ' ' then [""] + SplitOnComma(s[2..])
    else
      var rest := SplitOnComma(s[1..]);
      [[s[0]] + rest[0]] + rest[1..]
  }

  lemma {:induction false} SplitHead(part: string, tail: string)
    requires ',' !in part
    ensures SplitOnComma(part + ", " + tail) == [part] + SplitOnComma(tail)
  {
    if part == [] {
      assert part + ", " + tail == ", " + tail;
      assert (", " + tail)[2..] == tail;
    } else {
      SplitHead(part[1..], tail);
      assert (part + ", " + tail)[1..] == part[1..] + ", " + tail;
      assert [part[0]] + part[1..] == part;
    }
  }

  lemma {:induction false} SplitWhole(part: string)
    requires ',' !in part
    ensures SplitOnComma(part) == [part]
  {
    if part != [] {
      SplitWhole(part[1..]);
      assert [part[0]] + part[1..] == part;
    }
  }

  /** Splitting `', '.join(parts)` on ", " gives back the parts, when there
      is at least one and none contains a comma. */
  lemma {:induction false} SplitJoin(parts: seq<string>)
    requires |parts| >= 1
    requires forall p :: p in parts ==> ',' !in p
    ensures SplitOnComma(Join(", ", parts)) == parts
  {
    if |parts| == 1 {
      SplitWhole(parts[0]);
    } else {
      SplitJoin(parts[1..]);
      SplitHead(parts[0], Join(", ", parts[1..]));
    }
  }

  /** `s.replace('\n', '')` */
  function RemoveNewlines(s: string): (r: string)
    ensures '\n' !in r
    ensures |r| <= |s|
  {
    if s == [] then [] else (if s[0] == '\n' then [] else [s[0]]) + RemoveNewlines(s[1..])
  }

  /** Removing newlines introduces no character, and leaves a string
      without newlines as it was. */
  lemma {:induction false} RemoveNewlinesKeeps(s: string)
    ensures forall c :: c in RemoveNewlines(s) ==> c in s
    ensures '\n' !in s ==> RemoveNewlines(s) == s
  {
    if s != [] {
      RemoveNewlinesKeeps(s[1..]);
      assert forall c :: c in s[1..] ==> c in s;
      if '\n' !in s {
        assert [s[0]] + s[1..] == s;
      }
    }
  }

  lemma {:induction false} RemoveNewlinesAppend(a: string, b: string)
    ensures RemoveNewlines(a + b) == RemoveNewlines(a) + RemoveNewlines(b)
  {
    if a == [] {
      assert a + b == b;
    } else {
      RemoveNewlinesAppend(a[1..], b);
      var head := if a[0] == '\n' then [] else [a[0]];
      assert RemoveNewlines(a + b) == head + RemoveNewlines(a[1..] + b) by {
        assert (a + b)[0] == a[0] && (a + b)[1..] == a[1..] + b;
      }
      assert RemoveNewlines(a) == head + RemoveNewlines(a[1..]);
      ConcatAssociates(head, RemoveNewlines(a[1..]), RemoveNewlines(b));
    }
  }

  lemma ConcatAssociates(x: string, y: string, z: string)
    ensures x + (y + z) == (x + y) + z
  {
  }

  /** The number of `%s` markers in `s`, read from left to right as the
      driver reads them. */
  function Placeholders(s: string): nat
  {
    if |s| < 2 then 0
    else if s[0] == '%' && s[1] == 's' then 1 + Placeholders(s[2..])
    else Placeholders(s[1..])
  }

  /** A text after which a following `%s` cannot be misread. */
  predicate EndsSafely(s: string)
  {
    s == [] || s[|s| - 1] != '%'
  }

  lemma {:induction false} NoPercentNoPlaceholders(s: string)
    requires '%' !in s
    ensures Placeholders(s) == 0
  {
    if |s| >= 2 {
      NoPercentNoPlaceholders(s[1..]);
    }
  }

  /** Placeholders add up over a concatenation that does not split a marker. */
  lemma {:induction false} PlaceholdersAppend(a: string, b: string)
    requires EndsSafely(a)
    ensures Placeholders(a + b) == Placeholders(a) + Placeholders(b)
  {
    if a == [] {
      assert a + b == b;
    } else if |a| == 1 {
      assert (a + b)[1..] == b;
    } else if |a| >= 2 {
      assert (a + b)[0] == a[0] && (a + b)[1] == a[1];
      if a[0] == '%' && a[1] == 's' {
        PlaceholdersAppend(a[2..], b);
        assert (a + b)[2..] == a[2..] + b;
        assert Placeholders(a + b) == 1 + Placeholders(a[2..] + b);
        assert EndsSafely(a[2..]);
      } else {
        PlaceholdersAppend(a[1..], b);
        assert (a + b)[1..] == a[1..] + b;
        assert Placeholders(a + b) == Placeholders(a[1..] + b);
      }
    }
  }

  /** A text with no `%` around a middle part has exactly the middle's markers. */
  lemma PlaceholdersBetween(a: string, m: string, b: string)
    requires '%' !in a && '%' !in b && EndsSafely(m)
    ensures Placeholders(a + m + b) == Placeholders(m)
    ensures EndsSafely(a + m + b)
  {
    NoPercentNoPlaceholders(a);
    NoPercentNoPlaceholders(b);
    PlaceholdersAppend(a, m);
    assert EndsSafely(a + m) by {
      if m == [] { assert a + m == a; }
    }
    PlaceholdersAppend(a + m, b);
    if b == [] { assert a + m + b == a + m; }
  }

  /** A list joined with a `%`-free separator has one marker per part when
      each part has exactly one. */
  lemma {:induction false} JoinPlaceholders(sep: string, parts: seq<string>)
    requires '%' !in sep
    requires forall p :: p in parts ==> Placeholders(p) == 1 && EndsSafely(p)
    ensures Placeholders(Join(sep, parts)) == |parts|
    ensures EndsSafely(Join(sep, parts))
  {
    if |parts| >= 2 {
      JoinPlaceholders(sep, parts[1..]);
      PlaceholdersBetween([], parts[0], sep);
      assert [] + parts[0] + sep == parts[0] + sep;
      PlaceholdersAppend(parts[0] + sep, Join(sep, parts[1..]));
    }
  }

  /** A joined list holds a character only if a part or the separator does. */
  lemma {:induction false} JoinExcludes(sep: string, parts: seq<string>, c: char)
    requires c !in sep
    requires forall p :: p in parts ==> c !in p
    ensures c !in Join(sep, parts)
  {
    if |parts| >= 2 {
      JoinExcludes(sep, parts[1..], c);
    }
  }

  function DigitChar(d: nat): char
    requires d < 10
  {
    "0123456789"[d]
  }

  predicate IsDigit(c: char)
  {
    '0' <= c <= '9'
  }

  /** The decimal digits of n, most significant first, without leading zeros. */
  function NatToString(n: nat): (s: string)
    ensures |s| >= 1
    ensures forall c :: c in s ==> IsDigit(c)
  {
    if n < 10 then [DigitChar(n)] else NatToString(n / 10) + [DigitChar(n % 10)]
  }

  /** `'{}'.format(i)` for an integer i */
  function IntToString(i: int): string
  {
    if i < 0 then "-" + NatToString(-i) else NatToString(i)
  }

  function ParseDigits(s: string): nat
    requires forall c :: c in s ==> IsDigit(c)
  {
    if s == [] then 0
    else
      assert s[|s| - 1] in s;
      assert IsDigit(s[|s| - 1]);
      assert forall c :: c in s[..|s| - 1] ==> c in s;
      ParseDigits(s[..|s| - 1]) * 10 + (s[|s| - 1] as int - '0' as int)
  }

  /** `int(s)` for a decimal literal with an optional minus sign; None otherwise. */
  function ParseInt(s: string): Option<int>
  {
    if |s| >= 2 && s[0] == '-' && forall c :: c in s[1..] ==> IsDigit(c) then Some(0 - ParseDigits(s[1..]) as int)
    else if |s| >= 1 && forall c :: c in s ==> IsDigit(c) then Some(ParseDigits(s))
    else None
  }

  lemma {:induction false} ParseNatToString(n: nat)
    ensures ParseDigits(NatToString(n)) == n
  {
    if n >= 10 {
      ParseNatToString(n / 10);
      var s := NatToString(n);
      assert s[..|s| - 1] == NatToString(n / 10);
    }
  }

  /** The decimal text of an integer reads back as that integer. */
  lemma ParseIntToString(i: int)
    ensures ParseInt(IntToString(i)) == Some(i)
  {
    if i < 0 {
      ParseNegativeToString(-i);
    } else {
      ParseNaturalToString(i);
    }
  }

  lemma ParseNegativeToString(n: nat)
    requires n > 0
    ensures ParseInt(IntToString(-(n as int))) == Some(-(n as int))
  {
    var s := IntToString(-(n as int));
    var digits := NatToString(n);
    ParseNatToString(n);
    assert s[1..] == digits;
    assert ParseInt(s) == Some(0 - ParseDigits(digits) as int);
  }

  lemma ParseNaturalToString(n: nat)
    ensures ParseInt(IntToString(n)) == Some(n)
  {
    var s := IntToString(n);
    var digits := NatToString(n);
    ParseNatToString(n);
    assert s == digits;
    assert s[0] in digits;
    assert ParseInt(s) == Some(ParseDigits(digits));
  }
}
