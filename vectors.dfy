/**
 * Integer block locations and the pure region helpers of the server
 * utilities: corner minimum and maximum, extents, volume, componentwise
 * addition and subtraction, the bounds of a list of blocks, and the
 * textual form of a location.
 */
module Vectors {
  import opened Wrappers

  /** A block location (or an offset between two of them). */
  datatype Vec = Vec(x: int, y: int, z: int)

  function Min(a: int, b: int): int { if a <= b then a else b }

  function Max(a: int, b: int): int { if a <= b then b else a }

  function Abs(a: int): int { if a < 0 then -a else a }

  /** Componentwise `a <= b`. */
  predicate Le(a: Vec, b: Vec) { a.x <= b.x && a.y <= b.y && a.z <= b.z }

  /** The lower corner of the cuboid spanned by two corners. */
  function RegionMin(start: Vec, end: Vec): (r: Vec)
    ensures Le(r, start) && Le(r, end)
    ensures (r.x == start.x || r.x == end.x) && (r.y == start.y || r.y == end.y) && (r.z == start.z || r.z == end.z)
  {
    Vec(Min(start.x, end.x), Min(start.y, end.y), Min(start.z, end.z))
  }

  /** The upper corner of the cuboid spanned by two corners. */
  function RegionMax(start: Vec, end: Vec): (r: Vec)
    ensures Le(start, r) && Le(end, r)
    ensures (r.x == start.x || r.x == end.x) && (r.y == start.y || r.y == end.y) && (r.z == start.z || r.z == end.z)
  {
    Vec(Max(start.x, end.x), Max(start.y, end.y), Max(start.z, end.z))
  }

  /** The number of blocks the cuboid spans along each axis (both corners included). */
  function RegionSize(start: Vec, end: Vec): (r: Vec)
    ensures r.x >= 1 && r.y >= 1 && r.z >= 1
    ensures AddLocations(RegionMin(start, end), r) == AddLocations(RegionMax(start, end), Vec(1, 1, 1))
  {
    Vec(Abs(start.x - end.x) + 1, Abs(start.y - end.y) + 1, Abs(start.z - end.z) + 1)
  }

  /** The number of blocks in the cuboid. */
  function RegionVolume(start: Vec, end: Vec): (r: int)
    ensures r >= 1
    ensures var s := RegionSize(start, end); r >= s.x && r >= s.y && r >= s.z
  {
    var s := RegionSize(start, end);
    VolumeOfPositive(s);
    s.x * s.y * s.z
  }

  lemma VolumeOfPositive(s: Vec)
    requires s.x >= 1 && s.y >= 1 && s.z >= 1
    ensures s.x * s.y * s.z >= s.x && s.x * s.y * s.z >= s.y && s.x * s.y * s.z >= s.z
  {
    assert s.x * s.y >= s.x && s.x * s.y >= s.y;
    assert (s.x * s.y) * s.z >= s.x * s.y;
    assert (s.x * s.y) * s.z >= s.z;
  }

  function AddLocations(a: Vec, b: Vec): (r: Vec)
    ensures r.x - b.x == a.x && r.y - b.y == a.y && r.z - b.z == a.z
  {
    Vec(a.x + b.x, a.y + b.y, a.z + b.z)
  }

  function SubtractLocations(a: Vec, b: Vec): (r: Vec)
    ensures r.x + b.x == a.x && r.y + b.y == a.y && r.z + b.z == a.z
  {
    Vec(a.x - b.x, a.y - b.y, a.z - b.z)
  }

  /** Corner order does not matter to the region helpers. */
  lemma RegionSymmetric(a: Vec, b: Vec)
    ensures RegionMin(a, b) == RegionMin(b, a) && RegionMax(a, b) == RegionMax(b, a)
    ensures RegionSize(a, b) == RegionSize(b, a) && RegionVolume(a, b) == RegionVolume(b, a)
    ensures Le(RegionMin(a, b), RegionMax(a, b))
  {
  }

  /** Adding back what was subtracted gives the original location, and the other way round. */
  lemma AddSubtractInverse(a: Vec, b: Vec)
    ensures AddLocations(SubtractLocations(a, b), b) == a
    ensures SubtractLocations(AddLocations(a, b), b) == a
  {
  }

  /**
   * The bounds of a list of blocks: the componentwise minimum and maximum,
   * folded over the list. The source seeds the fold with the infinite
   * corners and so answers (+Inf, -Inf) for an empty list; here that is None.
   */
  method RegionBounds(blocks: seq<Vec>) returns (bounds: Option<(Vec, Vec)>)
    ensures bounds.None? <==> blocks == []
    ensures bounds.Some? ==> forall i :: 0 <= i < |blocks| ==> Le(bounds.value.0, blocks[i]) && Le(blocks[i], bounds.value.1)
    ensures bounds.Some? ==> var (lo, hi) := bounds.value;
      && (exists i :: 0 <= i < |blocks| && blocks[i].x == lo.x)
      && (exists i :: 0 <= i < |blocks| && blocks[i].y == lo.y)
      && (exists i :: 0 <= i < |blocks| && blocks[i].z == lo.z)
      && (exists i :: 0 <= i < |blocks| && blocks[i].x == hi.x)
      && (exists i :: 0 <= i < |blocks| && blocks[i].y == hi.y)
      && (exists i :: 0 <= i < |blocks| && blocks[i].z == hi.z)
  {
    if blocks == [] {
      return None;
    }
    // The first step of the source's fold turns the infinite seeds into blocks[0].
    var min, max := blocks[0], blocks[0];
    var i := 1;
    while i < |blocks|
      invariant 1 <= i <= |blocks|
      invariant forall j :: 0 <= j < i ==> Le(min, blocks[j]) && Le(blocks[j], max)
      invariant exists j :: 0 <= j < i && blocks[j].x == min.x
      invariant exists j :: 0 <= j < i && blocks[j].y == min.y
      invariant exists j :: 0 <= j < i && blocks[j].z == min.z
      invariant exists j :: 0 <= j < i && blocks[j].x == max.x
      invariant exists j :: 0 <= j < i && blocks[j].y == max.y
      invariant exists j :: 0 <= j < i && blocks[j].z == max.z
    {
      min := RegionMin(min, blocks[i]);
      max := RegionMax(max, blocks[i]);
      i := i + 1;
    }
    bounds := Some((min, max));
  }

  // ---------------------------------------------------------------------
  // Decimal text, as JavaScript prints an integer in a template string.

  predicate IsDigit(c: char) { '0' <= c <= '9' }

  predicate AllDigits(s: string) { forall i :: 0 <= i < |s| ==> IsDigit(s[i]) }

  function DigitChar(d: int): (c: char)
    requires 0 <= d < 10
    ensures IsDigit(c) && c as int - '0' as int == d
  {
    (d + '0' as int) as char
  }

  /** Decimal digits of `n`, most significant first, without leading zeros. */
  function NatToString(n: nat): (s: string)
    ensures |s| >= 1 && AllDigits(s)
    ensures |s| > 1 ==> s[0] != '0'
    decreases n
  {
    if n < 10 then [DigitChar(n)] else NatToString(n / 10) + [DigitChar(n % 10)]
  }

  function IntToString(i: int): (s: string)
    ensures |s| >= 1 && ' ' !in s && ',' !in s && '(' !in s && ')' !in s
  {
    var s := if i < 0 then "-" + NatToString(-i) else NatToString(i);
    assert forall k :: 0 <= k < |s| ==> s[k] == '-' || IsDigit(s[k]);
    s
  }

  function ParseNat(s: string): nat
    requires AllDigits(s)
  {
    if s == [] then 0 else ParseNat(s[..|s| - 1]) * 10 + (s[|s| - 1] as int - '0' as int)
  }

  /** Reads back an optionally negative decimal integer. */
  function ParseInt(s: string): Option<int>
  {
    if |s| >= 2 && s[0] == '-' && AllDigits(s[1..]) then Some(0 - ParseNat(s[1..]) as int)
    else if |s| >= 1 && AllDigits(s) then Some(ParseNat(s))
    else None
  }

  lemma {:induction false} ParseNatToString(n: nat)
    ensures ParseNat(NatToString(n)) == n
    decreases n
  {
    var s := NatToString(n);
    if n >= 10 {
      ParseNatToString(n / 10);
      assert s[..|s| - 1] == NatToString(n / 10);
    } else {
      assert s[..|s| - 1] == [];
    }
  }

  /** The decimal text of an integer reads back as that integer. */
  lemma ParseIntToString(i: int)
    ensures ParseInt(IntToString(i)) == Some(i)
  {
    if i < 0 {
      ParseNatToString(-i);
      assert IntToString(i)[1..] == NatToString(-i);
    } else {
      ParseNatToString(i);
    }
  }

  // ---------------------------------------------------------------------
  // printLocation and a reader for its two forms.

  /** `(x, y, z)` when pretty, `x y z` (the form used in host commands) otherwise. */
  function PrintLocation(v: Vec, pretty: bool): string
  {
    if pretty then "(" + IntToString(v.x) + ", " + IntToString(v.y) + ", " + IntToString(v.z) + ")"
    else IntToString(v.x) + " " + IntToString(v.y) + " " + IntToString(v.z)
  }

  /** The pieces of `s` between occurrences of `sep`. */
  function Split(s: string, sep: char): (parts: seq<string>)
    ensures |parts| >= 1
  {
    if s == [] then [[]]
    else
      var rest := Split(s[1..], sep);
      if s[0] == sep then [[]] + rest else [[s[0]] + rest[0]] + rest[1..]
  }

  lemma {:induction false} SplitNoSep(a: string, sep: char)
    requires sep !in a
    ensures Split(a, sep) == [a]
  {
    if a != [] {
      SplitNoSep(a[1..], sep);
      assert [a[0]] + a[1..] == a;
    }
  }

  lemma {:induction false} SplitAt(a: string, sep: char, b: string)
    requires sep !in a
    ensures Split(a + [sep] + b, sep) == [a] + Split(b, sep)
  {
    if a == [] {
      assert a + [sep] + b == [sep] + b;
      assert ([sep] + b)[1..] == b;
    } else {
      SplitAt(a[1..], sep, b);
      assert (a + [sep] + b)[1..] == a[1..] + [sep] + b;
      assert [a[0]] + a[1..] == a;
    }
  }

  /** Reads three integers separated by single spaces. */
  function ParsePlain(s: string): Option<Vec>
  {
    var parts := Split(s, ' ');
    if |parts| != 3 then None
    else match (ParseInt(parts[0]), ParseInt(parts[1]), ParseInt(parts[2]))
      case (Some(x), Some(y), Some(z)) => Some(Vec(x, y, z))
      case _ => None
  }

  /** Reads `(x, y, z)`. */
  function ParsePretty(s: string): Option<Vec>
  {
    if |s| < 2 || s[0] != '(' || s[|s| - 1] != ')' then None
    else
      var parts := Split(s[1..|s| - 1], ',');
      if |parts| != 3 || |parts[1]| == 0 || |parts[2]| == 0 || parts[1][0] != ' ' || parts[2][0] != ' ' then None
      else match (ParseInt(parts[0]), ParseInt(parts[1][1..]), ParseInt(parts[2][1..]))
        case (Some(x), Some(y), Some(z)) => Some(Vec(x, y, z))
        case _ => None
  }

  function ParseLocation(s: string, pretty: bool): Option<Vec>
  {
    if pretty then ParsePretty(s) else ParsePlain(s)
  }

  lemma PlainSplit(x: string, y: string, z: string)
    requires ' ' !in x && ' ' !in y && ' ' !in z
    ensures Split(x + " " + y + " " + z, ' ') == [x, y, z]
  {
    assert x + " " + y + " " + z == x + [' '] + (y + [' '] + z);
    SplitNoSep(z, ' ');
    SplitAt(y, ' ', z);
    SplitAt(x, ' ', y + [' '] + z);
  }

  lemma PlainRoundTrip(v: Vec)
    ensures ParsePlain(PrintLocation(v, false)) == Some(v)
  {
    var x, y, z := IntToString(v.x), IntToString(v.y), IntToString(v.z);
    ParseIntToString(v.x);
    ParseIntToString(v.y);
    ParseIntToString(v.z);
    PlainSplit(x, y, z);
  }

  lemma Parenthesised(t: string)
    ensures var s := "(" + t + ")"; |s| >= 2 && s[0] == '(' && s[|s| - 1] == ')' && s[1..|s| - 1] == t
  {
  }

  lemma PrettySplit(x: string, y: string, z: string)
    requires ',' !in x && ',' !in y && ',' !in z
    ensures Split(x + ", " + y + ", " + z, ',') == [x, " " + y, " " + z]
  {
    var py, pz := " " + y, " " + z;
    assert x + ", " + y + ", " + z == x + [','] + (py + [','] + pz);
    SplitNoSep(pz, ',');
    SplitAt(py, ',', pz);
    SplitAt(x, ',', py + [','] + pz);
  }

  lemma PrettyRoundTrip(v: Vec)
    ensures ParsePretty(PrintLocation(v, true)) == Some(v)
  {
    var x, y, z := IntToString(v.x), IntToString(v.y), IntToString(v.z);
    ParseIntToString(v.x);
    ParseIntToString(v.y);
    ParseIntToString(v.z);
    var inner := x + ", " + y + ", " + z;
    assert PrintLocation(v, true) == "(" + inner + ")";
    Parenthesised(inner);
    PrettySplit(x, y, z);
    assert (" " + y)[1..] == y && (" " + z)[1..] == z;
  }

  /** Both textual forms of a location determine the location. */
  lemma PrintLocationRoundTrip(v: Vec, pretty: bool)
    ensures ParseLocation(PrintLocation(v, pretty), pretty) == Some(v)
  {
    if pretty { PrettyRoundTrip(v); } else { PlainRoundTrip(v); }
  }
}
