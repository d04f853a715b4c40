/**
 * The HASH algorithm of 2023/day15/hash.py and 2023/day15/hashmap.py: a running value
 * that adds each character's code, multiplies by 17 and keeps the remainder modulo 256.
 */
module AsciiHash {
  import Text

  /** HASH as a left fold over the characters. */
  function Hash(s: string): (r: nat)
    ensures r < 256
    decreases |s|
  {
    if s == [] then 0 else (Hash(s[..|s| - 1]) + s[|s| - 1] as int) * 17 % 256
  }

  /** The empty string hashes to 0. */
  lemma HashEmpty()
    ensures Hash("") == 0
  {
  }

  /** One more character: add its code, times 17, modulo 256. */
  lemma HashStep(s: string, c: char)
    ensures Hash(s + [c]) == (Hash(s) + c as int) * 17 % 256
  {
    assert (s + [c])[..|s|] == s;
  }

  /** The loop of `HASH`, with `value` the hash of the characters read so far. */
  method HashOf(s: string) returns (value: nat)
    ensures value == Hash(s) && value < 256
  {
    value := 0;
    for i := 0 to |s|
      invariant value == Hash(s[..i])
    {
      HashStep(s[..i], s[i]);
      assert s[..i + 1] == s[..i] + [s[i]];
      value := value + s[i] as int;
      value := value * 17;
      value := value % 256;
    }
    assert s[..|s|] == s;
  }

  /**
   * hash.py's driver: the line stripped of surrounding whitespace (its line feed among it),
   * then each comma-separated part hashed on its own.
   */
  method HashParts(line: string) returns (values: seq<nat>)
    ensures var parts := Text.Split(Text.Strip(line), ',');
      |values| == |parts| && forall k :: 0 <= k < |parts| ==> values[k] == Hash(parts[k]) < 256
  {
    var parts := Text.Split(Text.Strip(line), ',');
    values := [];
    for k := 0 to |parts|
      invariant |values| == k && forall m :: 0 <= m < k ==> values[m] == Hash(parts[m])
    {
      var v := HashOf(parts[k]);
      values := values + [v];
    }
  }

  /** The line feed that ends a line read from input is stripped, never hashed. */
  lemma LineFeedStripped(line: string)
    ensures Text.Split(Text.Strip(line + "\n"), ',') == Text.Split(Text.Strip(line), ',')
  {
    Text.StripTrailing(line, '\n');
  }

  /** The puzzle's own example: `HASH` followed by its line feed is one part, hashing to 52. */
  lemma HashLine()
    ensures var parts := Text.Split(Text.Strip("HASH\n"), ',');
      parts == ["HASH"] && Hash(parts[0]) == 52
  {
    var word := "HASH";
    assert "HASH\n" == word + ['\n'];
    assert !Text.IsSpace(word[0]) && !Text.IsSpace(word[3]) && ',' !in word;
    WordLine(word);
    HashOfHash();
  }

  /** A word with no whitespace at either end and no comma, read with its line feed, is one part. */
  lemma WordLine(word: string)
    requires word != "" && !Text.IsSpace(word[0]) && !Text.IsSpace(word[|word| - 1]) && ',' !in word
    ensures Text.Split(Text.Strip(word + ['\n']), ',') == [word]
  {
    StripWordLine(word);
    Text.SplitAlone(word, ',');
  }

  /** A word with no whitespace at either end, followed by a line feed, strips to itself. */
  lemma StripWordLine(word: string)
    requires word != "" && !Text.IsSpace(word[0]) && !Text.IsSpace(word[|word| - 1])
    ensures Text.Strip(word + ['\n']) == word
  {
    Text.StripTrailing(word, '\n');
    Text.StripClean(word);
  }

  lemma HashOfHash()
    ensures Hash("HASH") == 52
  {
    HashStep("", 'H');
    assert Hash("H") == 200;
    HashStep("H", 'A');
    assert Hash("HA") == 153;
    HashStep("HA", 'S');
    assert Hash("HAS") == 172;
    HashStep("HAS", 'H');
    assert "HAS" + ['H'] == "HASH";
  }
}

/**
 * The 256 boxes of lenses of 2023/day15/hashmap.py. A box is a list of (label, focal
 * length) pairs; `label=n` and `label-` operate on box `Hash(label)` only.
 */
module LensLibrary {
  import opened Wrappers
  import Text
  import opened AsciiHash

  type Lens = (string, int)

  const BoxCount := 256

  /** The first slot whose label is `label`, as the `for ... break` search finds it. */
  function FindLabel(lenses: seq<Lens>, name: string): (r: Option<nat>)
    ensures r.Some? ==> r.value < |lenses| && lenses[r.value].0 == name
    ensures r.Some? ==> forall j :: 0 <= j < r.value ==> lenses[j].0 != name
    ensures r.None? <==> forall j :: 0 <= j < |lenses| ==> lenses[j].0 != name
    decreases |lenses|
  {
    if lenses == [] then None
    else if lenses[0].0 == name then Some(0)
    else match FindLabel(lenses[1..], name)
      case None => None
      case Some(i) => Some(i + 1)
  }

  /** `label=focal`: replace the focal length in the label's slot, or append a new lens. */
  function Put(lenses: seq<Lens>, name: string, focal: int): seq<Lens>
  {
    match FindLabel(lenses, name)
    case Some(i) => lenses[i := (name, focal)]
    case None => lenses + [(name, focal)]
  }

  /** `label-`: delete the label's slot if there is one. */
  function Remove(lenses: seq<Lens>, name: string): seq<Lens>
  {
    match FindLabel(lenses, name)
    case Some(i) => lenses[..i] + lenses[i + 1..]
    case None => lenses
  }

  /** The focal length the box holds for `label`, if any. */
  function FocalOf(lenses: seq<Lens>, name: string): Option<int>
  {
    match FindLabel(lenses, name)
    case Some(i) => Some(lenses[i].1)
    case None => None
  }

  predicate UniqueLabels(lenses: seq<Lens>) {
    forall i, j :: 0 <= i < j < |lenses| ==> lenses[i].0 != lenses[j].0
  }

  predicate InBox(lenses: seq<Lens>, box: nat) {
    forall i :: 0 <= i < |lenses| ==> Hash(lenses[i].0) == box
  }

  /** A well-formed table: 256 boxes, each lens in the box its label hashes to, labels unique per box. */
  predicate ValidBoxes(boxes: seq<seq<Lens>>) {
    |boxes| == BoxCount && forall b :: 0 <= b < |boxes| ==> InBox(boxes[b], b) && UniqueLabels(boxes[b])
  }

  /** The lenses of `lenses` whose label is not `label`, in their order. */
  function Without(lenses: seq<Lens>, name: string): (r: seq<Lens>)
    ensures forall i :: 0 <= i < |r| ==> r[i].0 != name
    decreases |lenses|
  {
    if lenses == [] then []
    else if lenses[0].0 == name then Without(lenses[1..], name)
    else [lenses[0]] + Without(lenses[1..], name)
  }

  /** `label=focal` keeps every slot's label and at most appends the new lens. */
  lemma PutLabels(lenses: seq<Lens>, name: string, focal: int)
    ensures var r := Put(lenses, name, focal);
      var ok := |lenses| <= |r| <= |lenses| + 1
        && (forall j :: 0 <= j < |lenses| ==> r[j].0 == lenses[j].0)
        && (|r| > |lenses| <==> FindLabel(lenses, name).None?)
        && (|r| > |lenses| ==> r[|lenses|] == (name, focal));
      ok
  {
  }

  /** A search that succeeds on a sequence succeeds the same way on any extension with the same labels. */
  lemma SameFind(a: seq<Lens>, b: seq<Lens>, name: string)
    requires |a| <= |b| && forall j :: 0 <= j < |a| ==> a[j].0 == b[j].0
    requires FindLabel(a, name).Some?
    ensures FindLabel(b, name) == FindLabel(a, name)
  {
    var i := FindLabel(a, name).value;
    assert b[i].0 == name;
    var f := FindLabel(b, name);
    assert forall j :: 0 <= j < i ==> b[j].0 != name;
    assert f.Some? && f.value <= i;
  }

  /** After `label=focal` the box holds `focal` for `label` and the same focal length for every other label. */
  lemma PutLookup(lenses: seq<Lens>, name: string, focal: int, other: string)
    ensures FocalOf(Put(lenses, name, focal), other) == if other == name then Some(focal) else FocalOf(lenses, other)
  {
    var r := Put(lenses, name, focal);
    PutLabels(lenses, name, focal);
    var g := FindLabel(lenses, other);
    if other == name {
      match g
      case Some(i) =>
        SameFind(lenses, r, name);
      case None =>
        assert FindLabel(r, name) == Some(|lenses|);
    } else if g.Some? {
      SameFind(lenses, r, other);
      assert r[g.value] == lenses[g.value];
    } else {
      assert FindLabel(r, other).None?;
    }
  }

  /** `label=focal` keeps the slot of an existing label and appends a new one at the end. */
  lemma PutKeepsSlots(lenses: seq<Lens>, name: string, focal: int)
    ensures var r := Put(lenses, name, focal);
      var ok := (FindLabel(lenses, name).Some? ==> |r| == |lenses| && FindLabel(r, name) == FindLabel(lenses, name))
        && (FindLabel(lenses, name).None? ==> r == lenses + [(name, focal)] && FindLabel(r, name) == Some(|lenses|))
        && forall j :: 0 <= j < |lenses| && lenses[j].0 != name ==> r[j] == lenses[j];
      ok
  {
    var r := Put(lenses, name, focal);
    PutLabels(lenses, name, focal);
    if FindLabel(lenses, name).Some? {
      SameFind(lenses, r, name);
    }
  }

  /** `label=focal` keeps labels unique and every lens in the box its label hashes to. */
  lemma PutKeepsValid(lenses: seq<Lens>, name: string, focal: int, box: nat)
    requires UniqueLabels(lenses) && InBox(lenses, box) && Hash(name) == box
    ensures var r := Put(lenses, name, focal); UniqueLabels(r) && InBox(r, box)
  {
  }

  /** Removing keeps every other lens, in order: it is the filter on the label. */
  lemma {:induction false} RemoveIsWithout(lenses: seq<Lens>, name: string)
    requires UniqueLabels(lenses)
    ensures Remove(lenses, name) == Without(lenses, name)
    decreases |lenses|
  {
    if lenses != [] {
      var t := lenses[1..];
      assert UniqueLabels(t);
      if lenses[0].0 == name {
        NoneWithout(t, name);
      } else {
        RemoveIsWithout(t, name);
        match FindLabel(t, name)
        case Some(i) =>
          assert lenses[..i + 1] + lenses[i + 2..] == [lenses[0]] + (t[..i] + t[i + 1..]);
        case None =>
          assert lenses == [lenses[0]] + t;
      }
    }
  }

  /** Filtering out a label that is absent changes nothing. */
  lemma {:induction false} NoneWithout(lenses: seq<Lens>, name: string)
    requires forall j :: 0 <= j < |lenses| ==> lenses[j].0 != name
    ensures Without(lenses, name) == lenses
    decreases |lenses|
  {
    if lenses != [] {
      NoneWithout(lenses[1..], name);
      assert lenses == [lenses[0]] + lenses[1..];
    }
  }

  /** After `label-` the label is gone and every other label keeps its focal length. */
  lemma RemoveLookup(lenses: seq<Lens>, name: string, other: string)
    requires UniqueLabels(lenses)
    ensures FocalOf(Remove(lenses, name), other) == if other == name then None else FocalOf(lenses, other)
  {
    RemoveIsWithout(lenses, name);
    WithoutLookup(lenses, name, other);
  }

  /** The lookup in a box with one more lens in front. */
  lemma FocalCons(x: Lens, rest: seq<Lens>, other: string)
    ensures FocalOf([x] + rest, other) == if x.0 == other then Some(x.1) else FocalOf(rest, other)
  {
    assert ([x] + rest)[1..] == rest;
  }

  /** Filtering out a label hides exactly that label from lookups. */
  lemma {:induction false} WithoutLookup(lenses: seq<Lens>, name: string, other: string)
    ensures FocalOf(Without(lenses, name), other) == if other == name then None else FocalOf(lenses, other)
    decreases |lenses|
  {
    if lenses != [] {
      var t := lenses[1..];
      assert lenses == [lenses[0]] + t;
      WithoutLookup(t, name, other);
      FocalCons(lenses[0], t, other);
      if lenses[0].0 != name {
        FocalCons(lenses[0], Without(t, name), other);
      }
    }
  }

  /** `label-` keeps labels unique and every lens in the box its label hashes to. */
  lemma RemoveKeepsValid(lenses: seq<Lens>, name: string, box: nat)
    requires UniqueLabels(lenses) && InBox(lenses, box)
    ensures var r := Remove(lenses, name); UniqueLabels(r) && InBox(r, box)
  {
    match FindLabel(lenses, name)
    case None =>
    case Some(i) =>
      var r := Remove(lenses, name);
      assert forall j :: 0 <= j < |r| ==> r[j] == if j < i then lenses[j] else lenses[j + 1];
  }

  /**
   * One comma-separated step. `label=n` needs exactly one `=` (the two-name unpacking of
   * `split('=', 2)`) and an integer after it; then, independently, a `-` removes the
   * label before the first `-`. A part with both runs both.
   */
  function Step(boxes: seq<seq<Lens>>, part: string): (r: Result<seq<seq<Lens>>>)
    requires |boxes| == BoxCount
    ensures r.Success? ==> |r.value| == BoxCount
  {
    var afterAssign := AssignStep(boxes, part);
    if afterAssign.Failure? || '-' !in part then afterAssign
    else
      var name := Text.Split(part, '-')[0];
      var h := Hash(name);
      Success(afterAssign.value[h := Remove(afterAssign.value[h], name)])
  }

  /** The `=` half of a step: unchanged boxes when the part has no `=`. */
  function AssignStep(boxes: seq<seq<Lens>>, part: string): (r: Result<seq<seq<Lens>>>)
    requires |boxes| == BoxCount
    ensures r.Success? ==> |r.value| == BoxCount
  {
    if '=' !in part then Success(boxes)
    else
      var pieces := Text.Split(part, '=');
      if |pieces| != 2 then Failure("too many values to unpack")
      else match Text.ParseInt(pieces[1])
        case None => Failure("invalid literal for int()")
        case Some(focal) =>
          var h := Hash(pieces[0]);
          Success(boxes[h := Put(boxes[h], pieces[0], focal)])
  }

  /** A step changes at most the boxes of the labels it names, and keeps the table well formed. */
  lemma StepKeepsValid(boxes: seq<seq<Lens>>, part: string)
    requires ValidBoxes(boxes)
    ensures var r := Step(boxes, part);
      var ok := r.Success? ==> (ValidBoxes(r.value)
        && forall b :: 0 <= b < BoxCount && b != Hash(Text.Split(part, '=')[0]) && b != Hash(Text.Split(part, '-')[0])
              ==> r.value[b] == boxes[b]);
      ok
  {
    var mid := boxes;
    if '=' in part {
      var pieces := Text.Split(part, '=');
      if |pieces| == 2 && Text.ParseInt(pieces[1]).Some? {
        var h := Hash(pieces[0]);
        PutKeepsValid(boxes[h], pieces[0], Text.ParseInt(pieces[1]).value, h);
        mid := boxes[h := Put(boxes[h], pieces[0], Text.ParseInt(pieces[1]).value)];
      }
    }
    assert ValidBoxes(mid);
    if '-' in part {
      var name := Text.Split(part, '-')[0];
      RemoveKeepsValid(mid[Hash(name)], name, Hash(name));
    }
  }

  /** The steps of a whole line in order, stopping at the first failure as the exception does. */
  function Steps(boxes: seq<seq<Lens>>, parts: seq<string>): (r: Result<seq<seq<Lens>>>)
    requires |boxes| == BoxCount
    ensures r.Success? ==> |r.value| == BoxCount
    decreases |parts|
  {
    if parts == [] then Success(boxes)
    else match Step(boxes, parts[0])
      case Failure(e) => Failure(e)
      case Success(next) => Steps(next, parts[1..])
  }

  /** The printed focusing powers of one box: `(box+1)*(slot+1)*focal` per slot. */
  function SlotPowers(box: nat, lenses: seq<Lens>): (r: seq<int>)
    ensures |r| == |lenses|
  {
    seq(|lenses|, j requires 0 <= j < |lenses| => (box + 1) * (j + 1) * lenses[j].1)
  }

  /** The printed focusing powers of every box, box by box. */
  function AllPowers(boxes: seq<seq<Lens>>): (r: seq<int>)
    decreases |boxes|
  {
    if boxes == [] then [] else AllPowers(boxes[..|boxes| - 1]) + SlotPowers(|boxes| - 1, boxes[|boxes| - 1])
  }

  /** The number of lenses in the first `n` boxes. */
  function LensCount(boxes: seq<seq<Lens>>): nat
    decreases |boxes|
  {
    if boxes == [] then 0 else LensCount(boxes[..|boxes| - 1]) + |boxes[|boxes| - 1]|
  }

  /** One power per lens, and the lens in slot `j` of box `b` comes after all lenses of earlier boxes. */
  lemma {:induction false} PowerAt(boxes: seq<seq<Lens>>, b: nat, j: nat)
    requires b < |boxes| && j < |boxes[b]|
    ensures |AllPowers(boxes)| == LensCount(boxes)
    ensures LensCount(boxes[..b]) + j < LensCount(boxes)
    ensures AllPowers(boxes)[LensCount(boxes[..b]) + j] == (b + 1) * (j + 1) * boxes[b][j].1
    decreases |boxes|
  {
    var n := |boxes| - 1;
    var init := boxes[..n];
    PowersLength(init);
    if b < n {
      assert init[..b] == boxes[..b];
      PowerAt(init, b, j);
    } else {
      assert init == boxes[..b];
    }
  }

  lemma {:induction false} PowersLength(boxes: seq<seq<Lens>>)
    ensures |AllPowers(boxes)| == LensCount(boxes)
    decreases |boxes|
  {
    if boxes != [] {
      PowersLength(boxes[..|boxes| - 1]);
    }
  }

  /** The lens table of hashmap.py, updated in place. */
  class Boxes {
    var boxes: seq<seq<Lens>>

    ghost predicate Valid()
      reads this
    {
      ValidBoxes(boxes)
    }

    /** `[[] for _ in range(256)]`. */
    constructor ()
      ensures Valid() && boxes == seq(BoxCount, _ => [])
    {
      boxes := seq(BoxCount, _ => []);
    }

    /** The search loop: the first slot holding `label`. */
    static method Find(lenses: seq<Lens>, name: string) returns (found: Option<nat>)
      ensures found == FindLabel(lenses, name)
    {
      found := None;
      var i := 0;
      while i < |lenses|
        invariant i <= |lenses| && forall j :: 0 <= j < i ==> lenses[j].0 != name
      {
        if lenses[i].0 == name {
          found := Some(i);
          assert FindLabel(lenses, name) == found;
          return;
        }
        i := i + 1;
      }
    }

    /** `label=focal` on box `Hash(label)`; every other box is untouched. */
    method Assign(name: string, focal: int)
      requires Valid()
      modifies this
      ensures Valid()
      ensures boxes == old(boxes)[Hash(name) := Put(old(boxes)[Hash(name)], name, focal)]
    {
      var h := HashOf(name);
      var lenses := boxes[h];
      var found := Find(lenses, name);
      match found {
        case Some(i) =>
          lenses := lenses[i := (name, focal)];
        case None =>
          lenses := lenses + [(name, focal)];
      }
      PutKeepsValid(boxes[h], name, focal, h);
      boxes := boxes[h := lenses];
    }

    /** `label-` on box `Hash(label)`; every other box is untouched. */
    method Delete(name: string)
      requires Valid()
      modifies this
      ensures Valid()
      ensures boxes == old(boxes)[Hash(name) := Remove(old(boxes)[Hash(name)], name)]
    {
      var h := HashOf(name);
      var lenses := boxes[h];
      var found := Find(lenses, name);
      if found.Some? {
        lenses := lenses[..found.value] + lenses[found.value + 1..];
      }
      RemoveKeepsValid(boxes[h], name, h);
      boxes := boxes[h := lenses];
    }

    /** One comma-separated part; on a failure nothing has changed yet. */
    method Apply(part: string) returns (ok: bool)
      requires Valid()
      modifies this
      ensures Valid()
      ensures var r := Step(old(boxes), part); ok == r.Success? && boxes == if ok then r.value else old(boxes)
    {
      ok := true;
      if '=' in part {
        var pieces := Text.Split(part, '=');
        if |pieces| != 2 {
          return false;
        }
        var focal := Text.ParseInt(pieces[1]);
        if focal.None? {
          return false;
        }
        Assign(pieces[0], focal.value);
      }
      if '-' in part {
        Delete(Text.Split(part, '-')[0]);
      }
    }

    /** The parts of a line in order, stopping at the first failure. */
    method ApplyAll(parts: seq<string>) returns (ok: bool)
      requires Valid()
      modifies this
      ensures Valid()
      ensures var r := Steps(old(boxes), parts); ok == r.Success? && (ok ==> boxes == r.value)
    {
      var k := 0;
      ok := true;
      while k < |parts|
        invariant k <= |parts| && Valid()
        invariant Steps(old(boxes), parts) == Steps(boxes, parts[k..])
      {
        assert parts[k..][1..] == parts[k + 1..];
        ok := Apply(parts[k]);
        if !ok {
          return;
        }
        k := k + 1;
      }
    }

    /** One input line: stripped of surrounding whitespace, split at commas, each part applied. */
    method ApplyLine(line: string) returns (ok: bool)
      requires Valid()
      modifies this
      ensures Valid()
      ensures var r := Steps(old(boxes), Text.Split(Text.Strip(line), ','));
        ok == r.Success? && (ok ==> boxes == r.value)
    {
      ok := ApplyAll(Text.Split(Text.Strip(line), ','));
    }

    /** The final printing loop: the focusing power of every lens, box by box and slot by slot. */
    method FocusingPowers() returns (powers: seq<int>)
      requires Valid()
      ensures powers == AllPowers(boxes)
    {
      powers := [];
      for i := 0 to |boxes|
        invariant powers == AllPowers(boxes[..i])
      {
        var lenses := boxes[i];
        for j := 0 to |lenses|
          invariant powers == AllPowers(boxes[..i]) + SlotPowers(i, lenses[..j])
        {
          powers := powers + [(i + 1) * (j + 1) * lenses[j].1];
          assert SlotPowers(i, lenses[..j + 1]) == SlotPowers(i, lenses[..j]) + [(i + 1) * (j + 1) * lenses[j].1];
        }
        assert lenses[..|lenses|] == lenses;
        assert boxes[..i + 1][..i] == boxes[..i];
      }
      assert boxes[..|boxes|] == boxes;
    }
  }
}
