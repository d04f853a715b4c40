/**
 * `Schematic.gears` of 2023/day03/schema.py: every part number is filed under each symbol
 * next to it, in a dictionary keyed by symbol that keeps its keys in the order they were
 * first added; a gear is a `*` symbol filed with exactly two part numbers.
 */
module Gears {
  import opened Schematic

  /** `Gear`: the two part numbers next to one `*`. */
  datatype Gear = Gear(one: PartNumber, two: PartNumber)

  /** `Gear.ratio`. */
  function Ratio(g: Gear): int {
    g.one.number * g.two.number
  }

  /** The ratio does not depend on which of the two part numbers was filed first. */
  lemma RatioSymmetric(one: PartNumber, two: PartNumber)
    ensures Ratio(Gear(one, two)) == Ratio(Gear(two, one))
  {
  }

  // ---- incidences ----

  /** One symbol next to one part number. */
  datatype Incidence = Incidence(symbol: Symbol, part: PartNumber)

  /** The symbols of one part number, in order, each paired with the part. */
  function IncidencesOf(part: PartNumber): (r: seq<Incidence>)
    ensures |r| == |part.symbols|
  {
    seq(|part.symbols|, k requires 0 <= k < |part.symbols| => Incidence(part.symbols[k], part))
  }

  /** The order in which `gears` visits its two nested loops: part by part, symbol by symbol. */
  function Incidences(parts: seq<PartNumber>): seq<Incidence> {
    if parts == [] then [] else Incidences(parts[..|parts| - 1]) + IncidencesOf(parts[|parts| - 1])
  }

  /** The loops visit symbol `y` with part `p` exactly when `p` is a part number next to `y`. */
  lemma {:induction false} IncidencesMembers(parts: seq<PartNumber>, y: Symbol, p: PartNumber)
    ensures Incidence(y, p) in Incidences(parts) <==> p in parts && y in p.symbols
    decreases |parts|
  {
    if parts != [] {
      var init, last := parts[..|parts| - 1], parts[|parts| - 1];
      IncidencesMembers(init, y, p);
      assert parts == init + [last];
      if p == last && y in p.symbols {
        var k :| 0 <= k < |p.symbols| && p.symbols[k] == y;
        assert IncidencesOf(last)[k] == Incidence(y, p);
      }
    }
  }

  /** The part numbers filed under `y`: those of the incidences at `y`, in visiting order. */
  function PartsAt(inc: seq<Incidence>, y: Symbol): seq<PartNumber> {
    if inc == [] then []
    else PartsAt(inc[..|inc| - 1], y) + (if inc[|inc| - 1].symbol == y then [inc[|inc| - 1].part] else [])
  }

  lemma PartsAtSnoc(inc: seq<Incidence>, e: Incidence, y: Symbol)
    ensures PartsAt(inc + [e], y) == PartsAt(inc, y) + (if e.symbol == y then [e.part] else [])
  {
    assert (inc + [e])[..|inc|] == inc;
  }

  /** A part number is filed under `y` exactly when some incidence pairs the two. */
  lemma {:induction false} PartsAtMembers(inc: seq<Incidence>, y: Symbol, p: PartNumber)
    ensures p in PartsAt(inc, y) <==> Incidence(y, p) in inc
    decreases |inc|
  {
    if inc != [] {
      var init := inc[..|inc| - 1];
      PartsAtMembers(init, y, p);
      assert inc == init + [inc[|inc| - 1]];
    }
  }

  // ---- the cross-reference dictionary ----

  /** One key of `partSymbolXref` and its list. */
  datatype Entry = Entry(symbol: Symbol, parts: seq<PartNumber>)

  /** The position of key `y`, or the length when `y` is not a key. */
  function KeyIndex(x: seq<Entry>, y: Symbol): (i: nat)
    ensures i <= |x| && (i < |x| ==> x[i].symbol == y)
    ensures forall j :: 0 <= j < i ==> x[j].symbol != y
    decreases |x|
  {
    if x == [] then 0 else if x[0].symbol == y then 0 else 1 + KeyIndex(x[1..], y)
  }

  /** `partSymbolXref.setdefault(y, []).append(p)`: a new key goes at the end. */
  function Add(x: seq<Entry>, y: Symbol, p: PartNumber): seq<Entry> {
    var i := KeyIndex(x, y);
    if i < |x| then x[i := Entry(y, x[i].parts + [p])] else x + [Entry(y, [p])]
  }

  /** The dictionary after the incidences `inc`, in order. */
  function XrefOf(inc: seq<Incidence>): seq<Entry> {
    if inc == [] then [] else
      var e := inc[|inc| - 1];
      Add(XrefOf(inc[..|inc| - 1]), e.symbol, e.part)
  }

  lemma XrefSnoc(inc: seq<Incidence>, e: Incidence)
    ensures XrefOf(inc + [e]) == Add(XrefOf(inc), e.symbol, e.part)
  {
    assert (inc + [e])[..|inc|] == inc;
  }

  /** No key twice. */
  predicate DistinctKeys(x: seq<Entry>) {
    forall i, j :: 0 <= i < j < |x| ==> x[i].symbol != x[j].symbol
  }

  /** `y` is a key. */
  predicate Keyed(x: seq<Entry>, y: Symbol) {
    exists i :: 0 <= i < |x| && x[i].symbol == y
  }

  /** `x` is the dictionary of `inc`: keys once each, every list the parts filed under its key, every symbol of `inc` a key. */
  predicate Indexes(x: seq<Entry>, inc: seq<Incidence>) {
    DistinctKeys(x)
    && (forall i :: 0 <= i < |x| ==> x[i].parts == PartsAt(inc, x[i].symbol))
    && (forall k :: 0 <= k < |inc| ==> Keyed(x, inc[k].symbol))
  }

  /** Whatever is filed under `y` makes `y` a key. */
  lemma FiledKeyed(x: seq<Entry>, inc: seq<Incidence>, y: Symbol)
    requires Indexes(x, inc) && PartsAt(inc, y) != []
    ensures Keyed(x, y)
  {
    var p := PartsAt(inc, y)[0];
    PartsAtMembers(inc, y, p);
    var k :| 0 <= k < |inc| && inc[k] == Incidence(y, p);
    assert Keyed(x, inc[k].symbol);
  }

  /** One `setdefault(...).append(...)` keeps the dictionary in step with the incidences. */
  lemma AddIndexes(x: seq<Entry>, inc: seq<Incidence>, e: Incidence)
    requires Indexes(x, inc)
    ensures Indexes(Add(x, e.symbol, e.part), inc + [e])
  {
    var x' := Add(x, e.symbol, e.part);
    var inc' := inc + [e];
    var i := KeyIndex(x, e.symbol);
    if i == |x| && PartsAt(inc, e.symbol) != [] {
      FiledKeyed(x, inc, e.symbol);
    }
    forall j | 0 <= j < |x'|
      ensures x'[j].parts == PartsAt(inc', x'[j].symbol)
    {
      PartsAtSnoc(inc, e, x'[j].symbol);
    }
    forall k | 0 <= k < |inc'|
      ensures Keyed(x', inc'[k].symbol)
    {
      if k < |inc| {
        var j :| 0 <= j < |x| && x[j].symbol == inc[k].symbol;
        assert x'[j].symbol == inc'[k].symbol;
      } else if i < |x| {
        assert x'[i].symbol == e.symbol;
      } else {
        assert x'[|x|].symbol == e.symbol;
      }
    }
  }

  /** The dictionary the loops build indexes their incidences. */
  lemma {:induction false} XrefIndexes(inc: seq<Incidence>)
    ensures Indexes(XrefOf(inc), inc)
    decreases |inc|
  {
    if inc != [] {
      var init, e := inc[..|inc| - 1], inc[|inc| - 1];
      XrefIndexes(init);
      AddIndexes(XrefOf(init), init, e);
      assert init + [e] == inc;
    }
  }

  /** `partSymbolXref[y]`, or nothing when `y` is not a key. */
  function Lookup(x: seq<Entry>, y: Symbol): seq<PartNumber> {
    var i := KeyIndex(x, y);
    if i < |x| then x[i].parts else []
  }

  /** What the dictionary holds under `y` is exactly what was filed under it, in order. */
  lemma XrefLookup(inc: seq<Incidence>, y: Symbol)
    ensures Lookup(XrefOf(inc), y) == PartsAt(inc, y)
    ensures Keyed(XrefOf(inc), y) <==> PartsAt(inc, y) != []
  {
    var x := XrefOf(inc);
    XrefIndexes(inc);
    var i := KeyIndex(x, y);
    if PartsAt(inc, y) != [] {
      FiledKeyed(x, inc, y);
    }
  }

  // ---- gears ----

  /** A key that makes a gear: a `*` with exactly two part numbers. */
  predicate IsGear(e: Entry) {
    e.symbol.ch == '*' && |e.parts| == 2
  }

  /** The gears of a dictionary, in key order. */
  function GearsOf(x: seq<Entry>): seq<Gear> {
    if x == [] then []
    else
      var e := x[|x| - 1];
      GearsOf(x[..|x| - 1]) + (if IsGear(e) then [Gear(e.parts[0], e.parts[1])] else [])
  }

  lemma {:induction false} GearsOfMembers(x: seq<Entry>, g: Gear)
    ensures g in GearsOf(x) <==> exists i :: 0 <= i < |x| && IsGear(x[i]) && g == Gear(x[i].parts[0], x[i].parts[1])
    decreases |x|
  {
    if x != [] {
      var init := x[..|x| - 1];
      GearsOfMembers(init, g);
      if exists i :: 0 <= i < |x| && IsGear(x[i]) && g == Gear(x[i].parts[0], x[i].parts[1]) {
        var i :| 0 <= i < |x| && IsGear(x[i]) && g == Gear(x[i].parts[0], x[i].parts[1]);
        if i < |init| {
          assert init[i] == x[i];
        }
      }
      if exists i :: 0 <= i < |init| && IsGear(init[i]) && g == Gear(init[i].parts[0], init[i].parts[1]) {
        var i :| 0 <= i < |init| && IsGear(init[i]) && g == Gear(init[i].parts[0], init[i].parts[1]);
        assert init[i] == x[i];
      }
    }
  }

  /** `*` symbol `y` is filed with exactly two part numbers, and `g` is those two, in order. */
  predicate GearAt(inc: seq<Incidence>, y: Symbol, g: Gear) {
    var ps := PartsAt(inc, y);
    y.ch == '*' && |ps| == 2 && g == Gear(ps[0], ps[1])
  }

  /** `gears` lists a gear exactly for each `*` filed with exactly two part numbers. */
  lemma GearIff(inc: seq<Incidence>, g: Gear)
    ensures g in GearsOf(XrefOf(inc)) <==> exists y :: GearAt(inc, y, g)
  {
    var x := XrefOf(inc);
    XrefIndexes(inc);
    GearsOfMembers(x, g);
    if g in GearsOf(x) {
      var i :| 0 <= i < |x| && IsGear(x[i]) && g == Gear(x[i].parts[0], x[i].parts[1]);
      assert GearAt(inc, x[i].symbol, g);
    }
    if exists y :: GearAt(inc, y, g) {
      var y :| GearAt(inc, y, g);
      XrefLookup(inc, y);
      var i := KeyIndex(x, y);
      assert IsGear(x[i]);
    }
  }

  // ---- the method ----

  lemma PrefixSnoc(a: seq<Incidence>, b: seq<Incidence>, k: nat)
    requires k < |b|
    ensures a + b[..k + 1] == a + b[..k] + [b[k]]
  {
    assert b[..k + 1] == b[..k] + [b[k]];
  }

  /** The inner loop of `gears`: file one part number under each of its symbols. */
  method FilePart(xref0: seq<Entry>, ghost before: seq<Incidence>, part: PartNumber) returns (xref: seq<Entry>)
    requires xref0 == XrefOf(before)
    ensures xref == XrefOf(before + IncidencesOf(part))
  {
    ghost var pairs := IncidencesOf(part);
    xref := xref0;
    assert before + pairs[..0] == before;
    for k := 0 to |part.symbols|
      invariant xref == XrefOf(before + pairs[..k])
    {
      XrefSnoc(before + pairs[..k], pairs[k]);
      PrefixSnoc(before, pairs, k);
      xref := Add(xref, part.symbols[k], part);
    }
    assert pairs[..|part.symbols|] == pairs;
  }

  /** The dictionary loop of `gears` over given part numbers, then the pass over its keys. */
  method GearsFrom(parts: seq<PartNumber>) returns (gears: seq<Gear>)
    ensures gears == GearsOf(XrefOf(Incidences(parts)))
  {
    var xref: seq<Entry> := [];
    for i := 0 to |parts|
      invariant xref == XrefOf(Incidences(parts[..i]))
    {
      assert parts[..i + 1][..i] == parts[..i];
      xref := FilePart(xref, Incidences(parts[..i]), parts[i]);
    }
    assert parts[..|parts|] == parts;
    gears := [];
    for j := 0 to |xref|
      invariant gears == GearsOf(xref[..j])
    {
      assert xref[..j + 1][..j] == xref[..j];
      var entry := xref[j];
      if entry.symbol.ch == '*' && |entry.parts| == 2 {
        gears := gears + [Gear(entry.parts[0], entry.parts[1])];
      }
    }
    assert xref[..|xref|] == xref;
  }

  /** `gears`: the part numbers of the schematic, filed under their symbols, then the gears. */
  method SchematicGears(lines: seq<string>) returns (gears: seq<Gear>)
    ensures gears == GearsOf(XrefOf(Incidences(Parts(AllCandidates(lines)))))
  {
    var parts := PartNumbers(lines);
    gears := GearsFrom(parts);
  }

  /**
   * Of the schematic's part numbers, `p` is filed under `y` exactly when it is listed and
   * `y` is one of its symbols.
   */
  lemma FiledUnder(parts: seq<PartNumber>, y: Symbol, p: PartNumber)
    ensures p in PartsAt(Incidences(parts), y) <==> p in parts && y in p.symbols
  {
    PartsAtMembers(Incidences(parts), y, p);
    IncidencesMembers(parts, y, p);
  }
}
