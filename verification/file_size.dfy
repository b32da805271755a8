/**
 * `format_filesize`: the unit (B, KB, MB, GB) in which a byte count is
 * shown, or the "(unknown)" sentinel. The quotient that is printed is kept
 * as an exact real number; its `%.2f` rendering is not modelled.
 */
module FileSize {
  import opened Options

  datatype Unit = B | KB | MB | GB

  /** The divisor of each unit, the `methods` table of the source. */
  function Factor(u: Unit): nat {
    match u
    case B => 1
    case KB => 1024
    case MB => 1024 * 1024
    case GB => 1024 * 1024 * 1024
  }

  /** Position of a unit in the order B < KB < MB < GB. */
  function Rank(u: Unit): nat {
    match u
    case B => 0
    case KB => 1
    case MB => 2
    case GB => 3
  }

  /** The key of a unit in the `methods` table. */
  function UnitName(u: Unit): string {
    match u
    case B => "B"
    case KB => "KB"
    case MB => "MB"
    case GB => "GB"
  }

  /**
   * The unit a method name selects: the unit whose key the name is, and
   * `None` for a name the table does not hold (and for no name at all).
   */
  function UnitNamed(name: Option<string>): (r: Option<Unit>)
    ensures forall u :: r == Some(u) <==> name == Some(UnitName(u))
  {
    match name
    case Some("GB") => Some(GB)
    case Some("MB") => Some(MB)
    case Some("KB") => Some(KB)
    case Some("B") => Some(B)
    case _ => None
  }

  /**
   * The least whole number `float()` cannot convert, 2^1024 - 2^970: from
   * there on the nearest double (ties to even) is 2^1024, beyond the largest
   * finite double, and the conversion raises `OverflowError`.
   */
  const FloatOverflow: nat := 0xFFFF_FFFF_FFFF_FC00_0000_0000_0000_0000_0000_0000_0000_0000_0000_0000_0000_0000_0000_0000_0000_0000_0000_0000_0000_0000_0000_0000_0000_0000_0000_0000_0000_0000_0000_0000_0000_0000_0000_0000_0000_0000_0000_0000_0000_0000_0000_0000_0000_0000_0000_0000_0000_0000_0000_0000_0000_0000_0000_0000_0000_0000_0000_0000_0000_0000

  /** The size argument: a whole number of bytes, or a value `float()` rejects outright. */
  datatype SizeArg = Bytes(count: int) | NotANumber

  /** `(unknown)`, or the quotient of the size by the chosen unit's factor, with that unit. */
  datatype Formatted = Unknown | Amount(value: real, unit: Unit)

  /**
   * Automatic choice: the largest of KB, MB, GB whose factor is at most `n`, else B.
   */
  function AutoUnit(n: int): (u: Unit)
    ensures u == B || Factor(u) <= n
    ensures forall v :: v != B && Factor(v) <= n ==> Rank(v) <= Rank(u)
  {
    if n >= Factor(GB) then GB
    else if n >= Factor(MB) then MB
    else if n >= Factor(KB) then KB
    else B
  }

  /** A larger size never gets a smaller unit. */
  lemma {:induction false} AutoUnitMonotone(m: int, n: int)
    requires m <= n
    ensures Rank(AutoUnit(m)) <= Rank(AutoUnit(n))
  {
  }

  /**
   * The automatically scaled amount is at least 1 once the size reaches 1 KB,
   * and below 1024 unless the unit is GB, the largest.
   */
  lemma {:induction false} AutoAmountBounds(n: nat)
    ensures var u := AutoUnit(n);
      (n >= 1024 ==> 1.0 <= n as real / Factor(u) as real)
      && (u != GB ==> n as real / Factor(u) as real < 1024.0)
  {
    var u := AutoUnit(n);
    var f := Factor(u) as real;
    if n >= 1024 {
      assert f <= n as real;
    }
    if u != GB {
      assert n < 1024 * Factor(u);
      assert n as real < 1024.0 * f;
    }
  }

  /**
   * The source's procedure: sentinel for a value `float()` rejects or cannot
   * convert, and for a negative size;
   * the requested unit when the table has it; otherwise the loop that tries
   * KB, MB and GB in turn and keeps the last whose factor the size reaches.
   */
  method FormatFilesize(size: SizeArg, requested: Option<string>) returns (r: Formatted)
    ensures r == Unknown <==> size.NotANumber? || size.count < 0 || size.count >= FloatOverflow
    ensures r.Amount? ==> r.value == size.count as real / Factor(r.unit) as real
    ensures r.Amount? && UnitNamed(requested).Some? ==> r.unit == UnitNamed(requested).value
    ensures r.Amount? && UnitNamed(requested).None? ==> r.unit == AutoUnit(size.count)
  {
    if size.NotANumber? {
      return Unknown;
    }
    var n := size.count;
    if n >= FloatOverflow || -n >= FloatOverflow {
      return Unknown;
    }
    if n < 0 {
      return Unknown;
    }
    var unit: Unit;
    if UnitNamed(requested).Some? {
      unit := UnitNamed(requested).value;
    } else {
      unit := B;
      var trying := [KB, MB, GB];
      for i := 0 to |trying|
        invariant unit == B || (Factor(unit) <= n && Rank(unit) <= i)
        invariant forall k :: 0 <= k < i && Factor(trying[k]) <= n ==> k + 1 <= Rank(unit)
      {
        if n >= Factor(trying[i]) {
          unit := trying[i];
        }
      }
      assert trying[0] == KB && trying[1] == MB && trying[2] == GB;
      assert unit == AutoUnit(n);
    }
    r := Amount(n as real / Factor(unit) as real, unit);
  }
}
