/** Disk pool sizes: exact byte totals, printed with one decimal, read back and rounded to GB.
    Byte counts stay far below 2^53, so the floating-point totals and quotients are exact. */
module DiskPool {
  import opened Lists
  import opened Text

  const MIB := 1048576
  const GIB := 1073741824

  // ---------- decimal text ----------

  function Digit(n: nat): char
    requires n < 10
  {
    "0123456789"[n]
  }

  function DigitValue(c: char): Option<nat> {
    if '0' <= c <= '9' then Some((c - '0') as nat) else None
  }

  lemma DigitTrip(n: nat)
    requires n < 10
    ensures DigitValue(Digit(n)) == Some(n) && Digit(n) != '.'
  {
  }

  function Decimal(n: nat): (s: string)
    ensures s != []
  {
    if n < 10 then [Digit(n)] else Decimal(n / 10) + [Digit(n % 10)]
  }

  /** `int(s)` on digit strings. */
  function ParseNat(s: string): Option<nat> {
    if s == [] then None
    else if |s| == 1 then DigitValue(s[0])
    else
      match (ParseNat(s[..|s| - 1]), DigitValue(s[|s| - 1]))
      case (Some(high), Some(low)) => Some(10 * high + low)
      case _ => None
  }

  lemma {:induction false} DecimalTrip(n: nat)
    ensures ParseNat(Decimal(n)) == Some(n) && '.' !in Decimal(n)
  {
    DigitTrip(n % 10);
    if n >= 10 {
      var high := Decimal(n / 10);
      DecimalTrip(n / 10);
      assert Decimal(n)[..|Decimal(n)| - 1] == high;
    }
  }

  // ---------- cvtToMag ----------

  /** `"%.1f"`: the nearest multiple of a tenth, ties to the even one. */
  function HalfEven(n: nat, d: nat): nat
    requires d > 0
  {
    var q, r := n / d, n % d;
    if 2 * r < d then q else if 2 * r > d then q + 1 else if q % 2 == 0 then q else q + 1
  }

  /** The nearest multiple, and the even one of two that are equally near. */
  lemma HalfEvenExact(n: nat, d: nat)
    requires d > 0
    ensures -(d as int) <= 2 * (HalfEven(n, d) * d - n) <= d
    ensures 2 * (HalfEven(n, d) * d - n) == d || 2 * (HalfEven(n, d) * d - n) == -(d as int) ==> HalfEven(n, d) % 2 == 0
  {
    assert n == (n / d) * d + n % d;
    assert (n / d + 1) * d == (n / d) * d + d;
  }

  predicate InGiga(bytes: nat) {
    bytes > 5 * GIB
  }

  /** The printed figure, in tenths of its unit. */
  function Tenths(bytes: nat): nat {
    if InGiga(bytes) then HalfEven(10 * bytes, GIB) else HalfEven(10 * bytes, MIB)
  }

  /** A figure in tenths, with its magnitude. */
  function Figure(tenths: nat, giga: bool): string {
    Decimal(tenths / 10) + "." + [Digit(tenths % 10)] + [if giga then 'G' else 'M']
  }

  function CvtToMag(bytes: nat): string {
    Figure(Tenths(bytes), InGiga(bytes))
  }

  /** Sizes above 5 GB are printed in G, in tenths of 1073741824 bytes, others in M, in tenths of 1048576. */
  lemma MagnitudeExact(bytes: nat)
    ensures CvtToMag(bytes)[|CvtToMag(bytes)| - 1] == (if bytes > 5368709120 then 'G' else 'M')
    ensures bytes > 5368709120 ==> -1073741824 <= 2 * (Tenths(bytes) * 1073741824 - 10 * bytes) <= 1073741824
    ensures bytes <= 5368709120 ==> -1048576 <= 2 * (Tenths(bytes) * 1048576 - 10 * bytes) <= 1048576
  {
    HalfEvenExact(10 * bytes, GIB);
    HalfEvenExact(10 * bytes, MIB);
  }

  // ---------- diskpool_get_info ----------

  /** Everything before the first `c`; the whole text if there is none. */
  function Before(s: string, c: char): (r: string)
    ensures |r| <= |s|
  {
    if s == [] || s[0] == c then [] else [s[0]] + Before(s[1..], c)
  }

  lemma {:induction false} BeforeAppend(a: string, c: char, b: string)
    requires c !in a
    ensures Before(a + [c] + b, c) == a
  {
    if a == [] {
      assert a + [c] + b == [c] + b;
    } else {
      assert (a + [c] + b)[1..] == a[1..] + [c] + b;
      BeforeAppend(a[1..], c, b);
    }
  }

  lemma {:induction false} BeforeAll(a: string, c: char)
    requires c !in a
    ensures Before(a, c) == a
  {
    if a != [] { BeforeAll(a[1..], c); }
  }

  /** `n1.n2` rounded half up by its first decimals. */
  function GigaToGb(body: string): Option<nat> {
    var whole := Before(body, '.');
    if |whole| == |body| then None
    else
      match (ParseNat(whole), ParseNat(Before(body[|whole| + 1..], '.')))
      case (Some(n1), Some(n2)) => Some(if n2 >= 5 then n1 + 1 else n1)
      case _ => None
  }

  function MegaToGb(whole: string): Option<nat> {
    match ParseNat(whole)
    case Some(mb) => Some(if mb % 1024 >= 512 then mb / 1024 + 1 else mb / 1024)
    case None => None
  }

  /** `strip().upper()` and the conversion. */
  function ReadSize(s: string): Option<nat> {
    ToGb(Upper(Strip(s, WHITESPACE)))
  }

  /** The figure in GB; `None` for the errors raised on other texts. */
  function ToGb(s: string): Option<nat> {
    if s == [] then None
    else if s[|s| - 1] == 'G' then GigaToGb(s[..|s| - 1])
    else if s[|s| - 1] == 'M' then MegaToGb(if |s| >= 3 then s[..|s| - 3] else [])
    else None
  }

  lemma GigaText(n: nat, d: nat)
    requires d < 10
    ensures GigaToGb(Decimal(n) + "." + [Digit(d)]) == Some(if d >= 5 then n + 1 else n)
  {
    var whole, digit := Decimal(n), Digit(d);
    var body := whole + "." + [digit];
    DecimalTrip(n);
    DigitTrip(d);
    assert body == whole + ['.'] + [digit];
    BeforeAppend(whole, '.', [digit]);
    assert body[|whole| + 1..] == [digit];
    BeforeAll([digit], '.');
  }

  /** The GB figure of a printed one. */
  function Rounded(tenths: nat, giga: bool): nat {
    var whole := tenths / 10;
    if giga then (if tenths % 10 >= 5 then whole + 1 else whole)
    else if whole % 1024 >= 512 then whole / 1024 + 1 else whole / 1024
  }

  /** The nearest number of GB, a half rounded up; figures in M count whole megabytes. */
  lemma RoundedExact(tenths: nat, giga: bool)
    ensures giga ==> -10 < 2 * (10 * Rounded(tenths, giga) - tenths) <= 10
    ensures !giga ==> -1024 < 2 * (1024 * Rounded(tenths, giga) - tenths / 10) <= 1024
  {
  }

  /** The GB figure reached through printing and re-reading. */
  function Gb(bytes: nat): nat {
    Rounded(Tenths(bytes), InGiga(bytes))
  }

  /** A printed figure comes apart at its unit and its decimal. */
  lemma FigureText(n: nat, d: nat, unit: char)
    requires d < 10
    ensures var s := Decimal(n) + "." + [Digit(d)] + [unit];
      && s[|s| - 1] == unit && s[..|s| - 1] == Decimal(n) + "." + [Digit(d)] && |s| >= 3 && s[..|s| - 3] == Decimal(n)
  {
  }

  lemma GigaFigure(n: nat, d: nat)
    requires d < 10
    ensures ToGb(Decimal(n) + "." + [Digit(d)] + ['G']) == Some(if d >= 5 then n + 1 else n)
  {
    FigureText(n, d, 'G');
    GigaText(n, d);
  }

  lemma MegaFigure(n: nat, d: nat)
    requires d < 10
    ensures ToGb(Decimal(n) + "." + [Digit(d)] + ['M']) == Some(if n % 1024 >= 512 then n / 1024 + 1 else n / 1024)
  {
    FigureText(n, d, 'M');
    DecimalTrip(n);
  }

  lemma TextRounds(tenths: nat, giga: bool)
    ensures ToGb(Figure(tenths, giga)) == Some(Rounded(tenths, giga))
  {
    if giga { GigaFigure(tenths / 10, tenths % 10); } else { MegaFigure(tenths / 10, tenths % 10); }
  }

  lemma {:induction false} DecimalDigits(n: nat)
    ensures forall i :: 0 <= i < |Decimal(n)| ==> '0' <= Decimal(n)[i] <= '9'
  {
    if n >= 10 { DecimalDigits(n / 10); }
  }

  lemma FigureNormal(tenths: nat, giga: bool)
    ensures Upper(Strip(Figure(tenths, giga), WHITESPACE)) == Figure(tenths, giga)
  {
    DecimalDigits(tenths / 10);
    Normalised(Figure(tenths, giga));
  }

  /** The text carries exactly the figure `Gb`. */
  lemma TextTrip(bytes: nat)
    ensures ReadSize(CvtToMag(bytes)) == Some(Gb(bytes))
  {
    FigureNormal(Tenths(bytes), InGiga(bytes));
    TextRounds(Tenths(bytes), InGiga(bytes));
  }

  /** Rewrites every size of a pool in GB; any text of another form is an error. */
  method DiskpoolGetInfo(info: map<string, string>) returns (r: Option<map<string, nat>>)
    ensures r.Some? <==> forall k :: k in info ==> ReadSize(info[k]).Some?
    ensures r.Some? ==> r.value.Keys == info.Keys && forall k :: k in info ==> Some(r.value[k]) == ReadSize(info[k])
  {
    var result: map<string, nat> := map[];
    var todo := info.Keys;
    while todo != {}
      invariant todo <= info.Keys && result.Keys == info.Keys - todo
      invariant forall k :: k in result ==> Some(result[k]) == ReadSize(info[k])
      decreases |todo|
    {
      var k := Pick(todo);
      var gb := ReadSize(info[k]);
      if gb.None? {
        return None;
      }
      result := result[k := gb.value];
      todo := todo - {k};
    }
    r := Some(result);
  }

  // ---------- the error of the round trip ----------

  /** `gb` is within 0.55 GB of the exact size. */
  predicate Near(gb: int, bytes: nat) {
    -11 * GIB <= 20 * (gb * GIB - bytes) <= 11 * GIB
  }

  /** Every printed and re-read figure is off by at most 0.55 GB. */
  lemma RoundedNear(bytes: nat)
    ensures Near(Gb(bytes), bytes)
  {
    var n, t := 10 * bytes, Tenths(bytes);
    if InGiga(bytes) {
      assert n == (n / GIB) * GIB + n % GIB;
      assert -GIB <= 2 * (t * GIB - n) <= GIB;
    } else {
      assert n == (n / MIB) * MIB + n % MIB;
      assert -MIB <= 2 * (t * MIB - n) <= MIB;
    }
  }

  lemma NearSum(used: nat, free: nat, total: int, u: int, f: int)
    requires Near(total, used + free) && Near(u, used) && Near(f, free)
    ensures -1 <= total - u - f <= 1
  {
  }

  /** The figures read back for a pool, total minus used minus free, are off by at most one. */
  lemma RoundingBound(used: nat, free: nat)
    ensures -1 <= Gb(used + free) - Gb(used) - Gb(free) <= 1
  {
    RoundedNear(used + free);
    RoundedNear(used);
    RoundedNear(free);
    NearSum(used, free, Gb(used + free), Gb(used), Gb(free));
  }

  /** Both deviations occur. */
  lemma BoundIsReached()
    ensures Gb(512 * MIB + 512 * MIB) - Gb(512 * MIB) - Gb(512 * MIB) == -1
    ensures Gb(300 * MIB + 300 * MIB) - Gb(300 * MIB) - Gb(300 * MIB) == 1
  {
    assert Tenths(512 * MIB) == 5120 && Tenths(1024 * MIB) == 10240;
    assert Tenths(300 * MIB) == 3000 && Tenths(600 * MIB) == 6000;
  }

  // ---------- getDiskPoolSpaceUsage ----------

  const MAXIMUM_CYL := 130000

  /** `_getDiskSize`, on the device type and the size column. */
  function DiskSize(kind: string, size: nat): nat {
    if "3390" <= kind then size * 737280
    else if "9336" <= kind then size * 512
    else if size > MAXIMUM_CYL then size * 512
    else size * 737280
  }

  predicate StartsWith(s: string, four: string) {
    |s| >= 4 && s[..4] == four
  }

  /** Cylinders of 737280 bytes for a 3390, blocks of 512 bytes for a 9336; another type is taken for a 9336 when
      it has more than 130000 units. */
  lemma DiskSizeExact(kind: string, size: nat)
    ensures StartsWith(kind, "3390") ==> DiskSize(kind, size) == 737280 * size
    ensures StartsWith(kind, "9336") ==> DiskSize(kind, size) == 512 * size
    ensures !StartsWith(kind, "3390") && !StartsWith(kind, "9336") && size > 130000 ==>
      DiskSize(kind, size) == 512 * size
    ensures !StartsWith(kind, "3390") && !StartsWith(kind, "9336") && size <= 130000 ==>
      DiskSize(kind, size) == 737280 * size
  {
    assert "3390" <= kind <==> StartsWith(kind, "3390");
    assert "9336" <= kind <==> StartsWith(kind, "9336");
  }

  /** The columns of a line: type in the second, size in the fourth, and the pool in the eighth of nine columns,
      otherwise in the fifth. */
  lemma LineExact(parts: seq<string>, size: nat)
    requires |parts| >= 5 && parts[3] == Decimal(size)
    ensures ReadLine(parts).Some? && ReadLine(parts).value.1 == DiskSize(parts[1], size)
    ensures |parts| == 9 ==> ReadLine(parts).value.0 == parts[7]
    ensures |parts| != 9 ==> ReadLine(parts).value.0 == parts[4]
  {
    DecimalTrip(size);
  }

  /** A response line as pool name and bytes; `None` when a column is missing or not a number. */
  function ReadLine(parts: seq<string>): Option<(string, nat)> {
    if |parts| < 5 then None
    else
      match ParseNat(parts[3])
      case Some(size) => Some((if |parts| == 9 then parts[7] else parts[4], DiskSize(parts[1], size)))
      case None => None
  }

  predicate Readable(lines: seq<seq<string>>) {
    forall i :: 0 <= i < |lines| ==> ReadLine(lines[i]).Some?
  }

  /** The bytes a query reports for a pool. */
  function SumFor(lines: seq<seq<string>>, pool: string): nat
    requires Readable(lines)
  {
    if lines == [] then 0
    else
      var (name, bytes) := ReadLine(lines[|lines| - 1]).value;
      SumFor(lines[..|lines| - 1], pool) + if name == pool then bytes else 0
  }

  function PoolsOf(lines: seq<seq<string>>): set<string>
    requires Readable(lines)
  {
    if lines == [] then {} else PoolsOf(lines[..|lines| - 1]) + {ReadLine(lines[|lines| - 1]).value.0}
  }

  datatype Totals = Totals(free: nat, used: nat)

  function Entry(totals: map<string, Totals>, p: string): Totals {
    if p in totals then totals[p] else Totals(0, 0)
  }

  function Added(t: Totals, bytes: nat, asUsed: bool): Totals {
    if asUsed then t.(used := t.used + bytes) else t.(free := t.free + bytes)
  }

  /** The lines added one after another. */
  function Accumulated(totals: map<string, Totals>, lines: seq<seq<string>>, asUsed: bool): map<string, Totals>
    requires Readable(lines)
  {
    if lines == [] then totals
    else
      var now := Accumulated(totals, lines[..|lines| - 1], asUsed);
      var (pool, bytes) := ReadLine(lines[|lines| - 1]).value;
      now[pool := Added(Entry(now, pool), bytes, asUsed)]
  }

  /** Accumulation is a sum per pool. */
  lemma {:induction false} AccumulatedSum(totals: map<string, Totals>, lines: seq<seq<string>>, asUsed: bool, p: string)
    requires Readable(lines)
    ensures p in Accumulated(totals, lines, asUsed) <==> p in totals || p in PoolsOf(lines)
    ensures Entry(Accumulated(totals, lines, asUsed), p) == Added(Entry(totals, p), SumFor(lines, p), asUsed)
  {
    if lines != [] { AccumulatedSum(totals, lines[..|lines| - 1], asUsed, p); }
  }

  /** One query's lines added to the totals. */
  method AddLines(totals: map<string, Totals>, lines: seq<seq<string>>, asUsed: bool)
    returns (r: Option<map<string, Totals>>)
    ensures r.Some? <==> Readable(lines)
    ensures r.Some? ==> r.value == Accumulated(totals, lines, asUsed)
  {
    var now := totals;
    for i := 0 to |lines|
      invariant Readable(lines[..i])
      invariant now == Accumulated(totals, lines[..i], asUsed)
    {
      var line := ReadLine(lines[i]);
      if line.None? {
        return None;
      }
      assert lines[..i + 1][..i] == lines[..i];
      var (pool, bytes) := line.value;
      var entry := Totals(0, 0);
      if pool in now {
        entry := now[pool];
      }
      now := now[pool := Added(entry, bytes, asUsed)];
    }
    assert lines[..|lines|] == lines;
    r := Some(now);
  }

  lemma EmptyPools(lines: seq<seq<string>>)
    requires Readable(lines)
    ensures lines == [] || ReadLine(lines[|lines| - 1]).value.0 in PoolsOf(lines)
  {
  }

  datatype Usage = Pools(totals: map<string, Totals>) | ApiFailed | NoPool | Malformed

  /** Query 2 reports free, query 3 used space; `None` stands for a failed call. */
  method GetDiskPoolSpaceUsage(free: Option<seq<seq<string>>>, used: Option<seq<seq<string>>>) returns (r: Usage)
    ensures r.ApiFailed? <==> free.None? || (Readable(free.value) && used.None?)
    ensures r.Malformed? <==> free.Some? && (!Readable(free.value) || (used.Some? && !Readable(used.value)))
    ensures r.NoPool? <==> free == Some([]) && used == Some([])
    ensures r.Pools? ==> r.totals.Keys == PoolsOf(free.value) + PoolsOf(used.value)
    ensures r.Pools? ==>
      forall p :: p in r.totals ==> r.totals[p] == Totals(SumFor(free.value, p), SumFor(used.value, p))
  {
    if free.None? {
      return ApiFailed;
    }
    var first := AddLines(map[], free.value, false);
    if first.None? {
      return Malformed;
    }
    if used.None? {
      return ApiFailed;
    }
    var second := AddLines(first.value, used.value, true);
    if second.None? {
      return Malformed;
    }
    forall p
      ensures p in second.value <==> p in PoolsOf(free.value) + PoolsOf(used.value)
      ensures Entry(second.value, p) == Totals(SumFor(free.value, p), SumFor(used.value, p))
    {
      AccumulatedSum(map[], free.value, false, p);
      AccumulatedSum(first.value, used.value, true, p);
    }
    if second.value == map[] {
      EmptyPools(free.value);
      EmptyPools(used.value);
      forall p ensures p !in PoolsOf(free.value) && p !in PoolsOf(used.value) { assert p !in second.value; }
      return NoPool;
    }
    r := Pools(second.value);
  }
}
