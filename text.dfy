/**
  Sequence and string helpers shared by the site marker and the card builders:
  joining with a separator (Python's `sep.join(...)`) and its inverse, the
  underscore escaping applied to image paths (`.replace('_', '\_')`), and the
  decimal rendering of a marker number (`str(k)`).
 */
module Text {

  /** `a` is a suffix of `b`. */
  predicate IsSuffix<T(==)>(a: seq<T>, b: seq<T>) {
    |a| <= |b| && b[|b| - |a|..] == a
  }

  /** The parts, in order, with `sep` between consecutive parts and after none of them. */
  function Join<T>(parts: seq<seq<T>>, sep: seq<T>): (r: seq<T>)
    decreases |parts|
  {
    if |parts| == 0 then []
    else if |parts| == 1 then parts[0]
    else parts[0] + sep + Join(parts[1..], sep)
  }

  /** A join starts with its first part and ends with its last. */
  lemma {:induction false} JoinEnds<T>(parts: seq<seq<T>>, sep: seq<T>)
    requires |parts| > 0
    ensures parts[0] <= Join(parts, sep)
    ensures IsSuffix(parts[|parts| - 1], Join(parts, sep))
    decreases |parts|
  {
    if |parts| > 1 {
      var rest := Join(parts[1..], sep);
      JoinEnds(parts[1..], sep);
      assert parts[|parts| - 1] == parts[1..][|parts| - 2];
      var r := parts[0] + sep + rest;
      assert r[|r| - |rest|..] == rest;
    }
  }

  /** Total length of all the parts. */
  function TotalLength<T>(parts: seq<seq<T>>): nat {
    if |parts| == 0 then 0 else |parts[0]| + TotalLength(parts[1..])
  }

  /** Adding one more part adds one separator and the part, at the end. */
  lemma {:induction false} JoinSnoc<T>(parts: seq<seq<T>>, x: seq<T>, sep: seq<T>)
    ensures Join(parts + [x], sep) == if |parts| == 0 then x else Join(parts, sep) + sep + x
    decreases |parts|
  {
    if |parts| > 1 {
      assert (parts + [x])[1..] == parts[1..] + [x];
      JoinSnoc(parts[1..], x, sep);
    }
  }

  /**
    One step of a loop that builds `prefix + Join(parts, sep)` by appending
    each part after the separator that follows the previous one.
   */
  lemma JoinAccumulate<T>(acc: seq<T>, prefix: seq<T>, front: seq<seq<T>>, x: seq<T>, sep: seq<T>)
    requires acc == prefix + Join(front, sep) + (if 0 < |front| then sep else [])
    ensures acc + x == prefix + Join(front + [x], sep)
  {
    JoinSnoc(front, x, sep);
    if |front| == 0 {
      assert acc == prefix;
    } else {
      var j := Join(front, sep);
      assert acc == prefix + j + sep;
      assert (prefix + j + sep) + x == prefix + (j + sep + x);
    }
  }

  /** A join of n parts holds exactly n - 1 separators besides the parts. */
  lemma {:induction false} JoinLength<T>(parts: seq<seq<T>>, sep: seq<T>)
    requires |parts| > 0
    ensures |Join(parts, sep)| == TotalLength(parts) + (|parts| - 1) * |sep|
    decreases |parts|
  {
    if |parts| > 1 {
      var k := |parts| - 2;
      JoinLength(parts[1..], sep);
      assert |Join(parts[1..], sep)| == TotalLength(parts[1..]) + k * |sep|;
      assert (k + 1) * |sep| == k * |sep| + |sep|;
    }
  }

  /** The pieces of `s` between occurrences of `c` (Python's `s.split(c)`). */
  function Split<T(==)>(s: seq<T>, c: T): (r: seq<seq<T>>)
    ensures |r| > 0
    ensures forall i :: 0 <= i < |r| ==> c !in r[i]
    decreases |s|
  {
    if |s| == 0 then [[]]
    else
      var rest := Split(s[1..], c);
      if s[0] == c then [[]] + rest else [[s[0]] + rest[0]] + rest[1..]
  }

  /** A sequence without the separator is one piece. */
  lemma {:induction false} SplitNoSeparator<T>(s: seq<T>, c: T)
    requires c !in s
    ensures Split(s, c) == [s]
    decreases |s|
  {
    if |s| > 0 {
      SplitNoSeparator(s[1..], c);
      assert s == [s[0]] + s[1..];
    }
  }

  /** Splitting distributes over one occurrence of the separator. */
  lemma {:induction false} SplitAround<T>(a: seq<T>, c: T, b: seq<T>)
    ensures Split(a + [c] + b, c) == Split(a, c) + Split(b, c)
    decreases |a|
  {
    if |a| == 0 {
      assert a + [c] + b == [c] + b;
      assert ([c] + b)[1..] == b;
    } else {
      assert (a + [c] + b)[1..] == a[1..] + [c] + b;
      SplitAround(a[1..], c, b);
    }
  }

  /** A prefix without the separator sticks to the first piece. */
  lemma {:induction false} SplitPrefix<T>(t: seq<T>, c: T, x: seq<T>)
    requires c !in t
    ensures Split(t + x, c) == [t + Split(x, c)[0]] + Split(x, c)[1..]
    decreases |t|
  {
    if |t| == 0 {
      var sx := Split(x, c);
      assert t + x == x && t + sx[0] == sx[0];
      assert sx == [sx[0]] + sx[1..];
    } else {
      assert (t + x)[0] == t[0] && (t + x)[1..] == t[1..] + x;
      SplitPrefix(t[1..], c, x);
      var r := Split(t[1..] + x, c);
      var sx := Split(x, c);
      assert r == [t[1..] + sx[0]] + sx[1..];
      assert Split(t + x, c) == [[t[0]] + r[0]] + r[1..];
      assert [t[0]] + (t[1..] + sx[0]) == t + sx[0];
    }
  }

  /**
    The pieces that splitting on `c` finds in a join whose separator is
    `lead + [c] + trail`: every part, with `trail` before it unless it is the
    first, and `lead` after it unless it is the last.
   */
  function Pieces<T>(parts: seq<seq<T>>, lead: seq<T>, trail: seq<T>): (r: seq<seq<T>>)
    ensures |r| == |parts|
  {
    seq(|parts|, k requires 0 <= k < |parts| =>
      (if k > 0 then trail else []) + parts[k] + (if k < |parts| - 1 then lead else []))
  }

  /**
    Splitting a join at the one separator element it contains gives back every
    part, in order, when neither the parts nor the rest of the separator hold
    that element.
   */
  lemma {:induction false} SplitJoin<T>(parts: seq<seq<T>>, lead: seq<T>, c: T, trail: seq<T>)
    requires |parts| > 0
    requires c !in lead && c !in trail
    requires forall i :: 0 <= i < |parts| ==> c !in parts[i]
    ensures Split(Join(parts, lead + [c] + trail), c) == Pieces(parts, lead, trail)
    decreases |parts|
  {
    var sep := lead + [c] + trail;
    if |parts| == 1 {
      SplitNoSeparator(parts[0], c);
      assert Pieces(parts, lead, trail)[0] == parts[0];
    } else {
      var rest := Join(parts[1..], sep);
      assert forall i :: 0 <= i < |parts[1..]| ==> parts[1..][i] == parts[i + 1];
      SplitJoin(parts[1..], lead, c, trail);
      assert Join(parts, sep) == parts[0] + sep + rest;
      assert parts[0] + sep + rest == (parts[0] + lead) + [c] + (trail + rest);
      SplitAround(parts[0] + lead, c, trail + rest);
      SplitNoSeparator(parts[0] + lead, c);
      SplitPrefix(trail, c, rest);
      PiecesCons(parts, lead, trail);
    }
  }

  /** The pieces of a join of two or more parts, in terms of the pieces of its tail. */
  lemma PiecesCons<T>(parts: seq<seq<T>>, lead: seq<T>, trail: seq<T>)
    requires |parts| > 1
    ensures
      var tail := Pieces(parts[1..], lead, trail);
      Pieces(parts, lead, trail) == [parts[0] + lead] + ([trail + tail[0]] + tail[1..])
  {
    var tail := Pieces(parts[1..], lead, trail);
    var r := [parts[0] + lead] + ([trail + tail[0]] + tail[1..]);
    var p := Pieces(parts, lead, trail);
    forall k | 0 <= k < |parts|
      ensures r[k] == p[k]
    {
      if k > 1 {
        assert r[k] == tail[k - 1];
      }
    }
  }

  /** `s` with every underscore preceded by a backslash (`s.replace('_', '\_')`). */
  function Escape(s: string): (r: string)
    ensures |r| >= |s|
    ensures forall i :: 0 <= i < |r| && r[i] == '_' ==> 0 < i && r[i - 1] == '\\'
    decreases |s|
  {
    if |s| == 0 then ""
    else (if s[0] == '_' then "\\_" else [s[0]]) + Escape(s[1..])
  }

  /** Reads an escaped string back: `\_` stands for `_`, every other character for itself. */
  function Unescape(s: string): string
    decreases |s|
  {
    if |s| == 0 then ""
    else if |s| >= 2 && s[0] == '\\' && s[1] == '_' then "_" + Unescape(s[2..])
    else [s[0]] + Unescape(s[1..])
  }

  /** Escaping loses nothing: the original string can be read back. */
  lemma {:induction false} EscapeRoundTrip(s: string)
    ensures Unescape(Escape(s)) == s
    decreases |s|
  {
    if |s| > 0 {
      EscapeRoundTrip(s[1..]);
      var tail := Escape(s[1..]);
      if s[0] == '_' {
        assert Escape(s) == "\\_" + tail;
        assert Escape(s)[2..] == tail;
      } else {
        assert Escape(s) == [s[0]] + tail;
        assert Escape(s)[1..] == tail;
        assert |tail| > 0 ==> tail[0] != '_';
      }
    }
  }

  /** Escaping works character by character. */
  lemma {:induction false} EscapeConcat(a: string, b: string)
    ensures Escape(a + b) == Escape(a) + Escape(b)
    decreases |a|
  {
    if |a| > 0 {
      assert (a + b)[0] == a[0] && (a + b)[1..] == a[1..] + b;
      EscapeConcat(a[1..], b);
      var head := if a[0] == '_' then "\\_" else [a[0]];
      assert Escape(a + b) == head + Escape((a + b)[1..]);
      assert Escape(a + b) == head + (Escape(a[1..]) + Escape(b));
      assert Escape(a) == head + Escape(a[1..]);
    } else {
      assert a + b == b;
    }
  }

  /** A string without underscores is left as it is. */
  lemma {:induction false} EscapeNoUnderscore(s: string)
    requires '_' !in s
    ensures Escape(s) == s
    decreases |s|
  {
    if |s| > 0 {
      EscapeNoUnderscore(s[1..]);
    }
  }

  /** The character of a decimal digit. */
  function Digit(d: nat): (c: char)
    requires d < 10
    ensures '0' <= c <= '9' && c as int - '0' as int == d
  {
    ('0' as int + d) as char
  }

  predicate IsDigits(s: string) {
    forall i :: 0 <= i < |s| ==> '0' <= s[i] <= '9'
  }

  /** The decimal rendering of `n`, without leading zeros (Python's `str(n)`). */
  function DecimalString(n: nat): (r: string)
    ensures |r| > 0 && IsDigits(r)
    ensures r[0] == '0' ==> n == 0
    decreases n
  {
    if n < 10 then [Digit(n)] else DecimalString(n / 10) + [Digit(n % 10)]
  }

  /** The value of a string of decimal digits. */
  function ParseDecimal(s: string): nat
    requires IsDigits(s)
    decreases |s|
  {
    if |s| == 0 then 0
    else ParseDecimal(s[..|s| - 1]) * 10 + (s[|s| - 1] as int - '0' as int)
  }

  /** The decimal rendering reads back as the same number. */
  lemma {:induction false} DecimalRoundTrip(n: nat)
    ensures ParseDecimal(DecimalString(n)) == n
    decreases n
  {
    if n >= 10 {
      var r := DecimalString(n);
      assert r[..|r| - 1] == DecimalString(n / 10);
      DecimalRoundTrip(n / 10);
    }
  }

  /** Different numbers are rendered differently. */
  lemma DecimalInjective(a: nat, b: nat)
    requires DecimalString(a) == DecimalString(b)
    ensures a == b
  {
    DecimalRoundTrip(a);
    DecimalRoundTrip(b);
  }
}
