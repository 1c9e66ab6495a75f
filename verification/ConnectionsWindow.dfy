/**
 What the connections window says of byte counts and of the flows it hides (`connections.rs`).

 The source divides `f64`s; here the quotients are exact. A figure is printed to one decimal, ties to even.
 */
module ConnectionsWindow {
  import opened Prelude

  const U64_MAX: nat := 0xffff_ffff_ffff_ffff

  // ------------------------------------------------------------------------------------- byte counts

  const LAST_UNIT: nat := 4

  /** B, KB, MB, GB and TB in bytes. */
  function Scale(unit: nat): int
    requires unit <= LAST_UNIT
  {
    match unit
    case 0 => 1
    case 1 => 1_000
    case 2 => 1_000_000
    case 3 => 1_000_000_000
    case _ => 1_000_000_000_000
  }

  /** A figure as printed: tenths of a unit. */
  datatype Figure = Figure(tenths: int, unit: nat)

  /** `value` to one decimal: the nearest tenth, and of two the even one. */
  function Tenths(value: real): (t: int)
    ensures t as real - 0.5 <= value * 10.0 <= t as real + 0.5
    ensures value * 10.0 == t as real - 0.5 || value * 10.0 == t as real + 0.5 ==> t % 2 == 0
  {
    var scaled := value * 10.0;
    var down := scaled.Floor;
    var rest := scaled - down as real;
    if rest < 0.5 || (rest == 0.5 && down % 2 == 0) then down else down + 1
  }

  /** The printed quantity in tenths of a byte. */
  function Quantity(f: Figure): int
    requires f.unit <= LAST_UNIT
  {
    f.tenths * Scale(f.unit)
  }

  ghost predicate Fits(bytes: nat, unit: nat)
    requires unit <= LAST_UNIT
  {
    bytes as real < 999.95 * Scale(unit) as real
  }

  /** The figure for `bytes`: bytes below a thousand, else the least unit in which it stays under 999.95, or TB. */
  ghost predicate Reads(f: Figure, bytes: nat) {
    if bytes < 1000 then f == Figure(10 * bytes, 0)
    else
      && 1 <= f.unit <= LAST_UNIT
      && f.tenths == Tenths(bytes as real / Scale(f.unit) as real)
      && (Fits(bytes, f.unit) || f.unit == LAST_UNIT)
      && forall u :: 1 <= u < f.unit ==> !Fits(bytes, u)
  }

  lemma {:induction false} Divided(bytes: nat, value: real, unit: nat)
    requires 1 <= unit < LAST_UNIT && value == bytes as real / Scale(unit) as real
    ensures value / 1000.0 == bytes as real / Scale(unit + 1) as real
    ensures value >= 999.95 <==> !Fits(bytes, unit)
  {
  }

  method HumanBytes(bytes: nat) returns (f: Figure)
    ensures Reads(f, bytes)
  {
    if bytes < 1000 {
      return Figure(10 * bytes, 0);
    }
    var value := bytes as real / 1000.0;
    var unit := 1;
    while value >= 999.95 && unit < LAST_UNIT
      invariant 1 <= unit <= LAST_UNIT && value == bytes as real / Scale(unit) as real
      invariant forall u :: 1 <= u < unit ==> !Fits(bytes, u)
    {
      Divided(bytes, value, unit);
      value := value / 1000.0;
      unit := unit + 1;
    }
    if unit < LAST_UNIT {
      Divided(bytes, value, unit);
    }
    return Figure(Tenths(value), unit);
  }

  lemma {:induction false} ValueBounds(bytes: nat, f: Figure)
    requires bytes >= 1000 && Reads(f, bytes)
    ensures bytes as real / Scale(f.unit) as real >= 0.99995
    ensures f.unit < LAST_UNIT ==> bytes as real / Scale(f.unit) as real < 999.95
  {
    if f.unit > 1 {
      assert !Fits(bytes, f.unit - 1);
    }
  }

  /** From a thousand bytes on the figure reads at least 1.0, below TB at most 999.9, and is right to half a tenth. */
  lemma {:induction false} FigureInRange(bytes: nat, f: Figure)
    requires bytes >= 1000 && Reads(f, bytes)
    ensures f.tenths >= 10
    ensures f.unit < LAST_UNIT ==> f.tenths <= 9999
    ensures 2 * Quantity(f) - Scale(f.unit) <= 20 * bytes <= 2 * Quantity(f) + Scale(f.unit)
  {
    ValueBounds(bytes, f);
    var value := bytes as real / Scale(f.unit) as real;
    assert value * Scale(f.unit) as real == bytes as real;
  }

  lemma {:induction false} UnitsGrow(a: nat, b: nat, f: Figure, g: Figure)
    requires 1000 <= a <= b && Reads(f, a) && Reads(g, b)
    ensures f.unit <= g.unit
  {
    assert forall u :: 1 <= u <= LAST_UNIT && Fits(b, u) ==> Fits(a, u);
  }

  lemma {:induction false} TenthsGrow(x: real, y: real)
    requires x <= y
    ensures Tenths(x) <= Tenths(y)
  {
  }

  lemma {:induction false} ScaleGrows(u: nat, v: nat)
    requires u < v <= LAST_UNIT
    ensures 1000 * Scale(u) <= Scale(v)
  {
  }

  lemma {:induction false} QuotientGrows(a: nat, b: nat, unit: nat)
    requires a <= b && unit <= LAST_UNIT
    ensures a as real / Scale(unit) as real <= b as real / Scale(unit) as real
  {
  }

  lemma {:induction false} QuantityGrows(f: Figure, g: Figure)
    requires f.unit == g.unit <= LAST_UNIT && f.tenths <= g.tenths
    ensures Quantity(f) <= Quantity(g)
  {
  }

  /** 999.9 of a unit is less than 1.0 of a greater one. */
  lemma {:induction false} UnitOutweighs(f: Figure, g: Figure)
    requires f.unit < g.unit <= LAST_UNIT && f.tenths <= 9999 && g.tenths >= 10
    ensures Quantity(f) <= Quantity(g)
  {
    ScaleGrows(f.unit, g.unit);
    assert Quantity(f) <= 9999 * Scale(f.unit);
    assert Quantity(g) >= 10 * Scale(g.unit);
  }

  /** More bytes never print as less. */
  lemma {:induction false} MoreNeverPrintsLess(a: nat, b: nat, f: Figure, g: Figure)
    requires a <= b && Reads(f, a) && Reads(g, b)
    ensures f.unit <= LAST_UNIT && g.unit <= LAST_UNIT && Quantity(f) <= Quantity(g)
  {
    if b < 1000 {
    } else if a < 1000 {
      FigureInRange(b, g);
      assert Scale(g.unit) >= 1000;
      assert Quantity(f) <= 9990 && Quantity(g) >= 10 * Scale(g.unit);
    } else {
      UnitsGrow(a, b, f, g);
      FigureInRange(a, f);
      FigureInRange(b, g);
      if f.unit == g.unit {
        QuotientGrows(a, b, f.unit);
        TenthsGrow(a as real / Scale(f.unit) as real, b as real / Scale(f.unit) as real);
        QuantityGrows(f, g);
      } else {
        UnitOutweighs(f, g);
      }
    }
  }

  // ------------------------------------------------------------------------------------- hidden flows

  datatype Scope = Internal | Lan | External

  datatype FlowRow = FlowRow(key: string, scope: Scope, count: nat)

  predicate IsShown(row: FlowRow, externalOnly: bool) {
    !externalOnly || row.scope.External?
  }

  function SaturatingAdd(a: nat, b: nat): nat {
    Min(a + b, U64_MAX)
  }

  /** The flows in the rows that satisfy `p`. */
  function Flows(p: FlowRow -> bool, rows: seq<FlowRow>): nat {
    if rows == [] then 0
    else
      var last := rows[|rows| - 1];
      Flows(p, rows[..|rows| - 1]) + if p(last) then last.count else 0
  }

  method HiddenFlows(rows: seq<FlowRow>, externalOnly: bool) returns (internal: nat, lan: nat)
    ensures internal == Min(Flows((r: FlowRow) => !IsShown(r, externalOnly) && r.scope.Internal?, rows), U64_MAX)
    ensures lan == Min(Flows((r: FlowRow) => !IsShown(r, externalOnly) && r.scope.Lan?, rows), U64_MAX)
  {
    internal, lan := 0, 0;
    for i := 0 to |rows|
      invariant internal == Min(Flows((r: FlowRow) => !IsShown(r, externalOnly) && r.scope.Internal?, rows[..i]), U64_MAX)
      invariant lan == Min(Flows((r: FlowRow) => !IsShown(r, externalOnly) && r.scope.Lan?, rows[..i]), U64_MAX)
    {
      assert rows[..i + 1][..i] == rows[..i];
      if !IsShown(rows[i], externalOnly) {
        match rows[i].scope {
          case Internal => internal := SaturatingAdd(internal, rows[i].count);
          case Lan => lan := SaturatingAdd(lan, rows[i].count);
          case External =>
        }
      }
    }
    assert rows[..|rows|] == rows;
  }

  /** Every flow is in a row listed or in one of the two hidden counts; with the box off nothing is hidden. */
  lemma {:induction false} FlowsConserved(rows: seq<FlowRow>, externalOnly: bool)
    ensures Flows((r: FlowRow) => IsShown(r, externalOnly), rows)
          + Flows((r: FlowRow) => !IsShown(r, externalOnly) && r.scope.Internal?, rows)
          + Flows((r: FlowRow) => !IsShown(r, externalOnly) && r.scope.Lan?, rows)
         == Flows((r: FlowRow) => true, rows)
    ensures !externalOnly ==> Flows((r: FlowRow) => IsShown(r, externalOnly), rows) == Flows((r: FlowRow) => true, rows)
  {
    if rows != [] {
      FlowsConserved(rows[..|rows| - 1], externalOnly);
    }
  }
}
