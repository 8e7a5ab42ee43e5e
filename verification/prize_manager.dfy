/** The prize list store (`PrizeManager` in src/core/prize_manager.py): an
    ordered list of prizes, bounds-checked editing, loading with per-field
    defaults, saving into the existing configuration document, and the
    weighted draw. */
module PrizeManager {
  import opened Common
  import opened Weighted

  /** The cap on the number of prizes `add_prize` accepts. */
  const MaxPrizes := 100

  /** Values a loaded prize gets for a missing field. */
  const DefaultName := "未命名奖品"
  const DefaultWeight := 1
  const DefaultImage := "resources/images/prize1.png"

  /** A prize as the store keeps it once loading has filled every field. */
  datatype Prize = Prize(name: string, weight: int, image: string)

  /** A prize dict of which any field may be missing, as a draw result carries it. */
  datatype RawPrize = RawPrize(name: Option<string>, weight: Option<int>, image: Option<string>)

  /** The dict `draw` returns: the prize, its position and the draw time. */
  datatype DrawResult = DrawResult(prize: RawPrize, index: int, timestamp: string)

  /** The random values one draw consumes and the clock reading it records:
      `r` from `randint(1, total)`, `uniform` from `randint(0, len - 1)`. */
  datatype Pick = Pick(r: int, uniform: int, timestamp: string)

  /** The result of an edit: the returned flag and the list afterwards. */
  datatype Change = Change(ok: bool, prizes: seq<Prize>)

  /** The three prizes used when nothing usable was loaded. */
  function DefaultPrizes(): (ps: seq<Prize>)
    ensures GetWeights(ps) == [10, 30, 60]
  {
    [ Prize("一等奖", 10, "resources/images/prize1.png"),
      Prize("二等奖", 30, "resources/images/prize2.png"),
      Prize("三等奖", 60, "resources/images/prize3.png") ]
  }

  /** The dict the store holds for a prize, with every field present. */
  function Snapshot(p: Prize): RawPrize
  {
    RawPrize(Some(p.name), Some(p.weight), Some(p.image))
  }

  // ---------------------------------------------------------------- editing

  function GetPrize(prizes: seq<Prize>, index: int): (r: Option<Prize>)
    ensures r.Some? <==> 0 <= index < |prizes|
    ensures r.Some? ==> r.value == prizes[index]
  {
    if 0 <= index < |prizes| then Some(prizes[index]) else None
  }

  function AddPrize(prizes: seq<Prize>, name: string, weight: int, image: string): (c: Change)
    ensures c.ok <==> |prizes| < MaxPrizes
    ensures !c.ok ==> c.prizes == prizes
    ensures c.ok ==> |c.prizes| == |prizes| + 1 && c.prizes[..|prizes|] == prizes
    ensures c.ok ==> c.prizes[|prizes|] == Prize(name, weight, image)
  {
    if |prizes| >= MaxPrizes then Change(false, prizes)
    else Change(true, prizes + [Prize(name, weight, image)])
  }

  function UpdatePrize(prizes: seq<Prize>, index: int, name: string, weight: int, image: string): (c: Change)
    ensures c.ok <==> 0 <= index < |prizes|
    ensures |c.prizes| == |prizes|
    ensures forall j :: 0 <= j < |prizes| && j != index ==> c.prizes[j] == prizes[j]
    ensures c.ok ==> c.prizes[index] == Prize(name, weight, image)
    ensures !c.ok ==> c.prizes == prizes
  {
    if 0 <= index < |prizes| then Change(true, prizes[index := Prize(name, weight, image)])
    else Change(false, prizes)
  }

  function RemovePrize(prizes: seq<Prize>, index: int): (c: Change)
    ensures c.ok <==> 0 <= index < |prizes|
    ensures !c.ok ==> c.prizes == prizes
    ensures c.ok ==> |c.prizes| == |prizes| - 1
    ensures c.ok ==> forall j :: 0 <= j < index ==> c.prizes[j] == prizes[j]
    ensures c.ok ==> forall j :: index <= j < |c.prizes| ==> c.prizes[j] == prizes[j + 1]
    ensures c.ok ==> multiset(c.prizes) + multiset{prizes[index]} == multiset(prizes)
  {
    if 0 <= index < |prizes| then
      assert prizes == prizes[..index] + [prizes[index]] + prizes[index + 1..];
      Change(true, prizes[..index] + prizes[index + 1..])
    else Change(false, prizes)
  }

  function GetWeights(prizes: seq<Prize>): (ws: seq<int>)
    ensures |ws| == |prizes|
    ensures forall k :: 0 <= k < |prizes| ==> ws[k] == prizes[k].weight
  {
    seq(|prizes|, k requires 0 <= k < |prizes| => prizes[k].weight)
  }

  /** Adding never takes a list within the cap beyond it. */
  lemma AddKeepsCap(prizes: seq<Prize>, name: string, weight: int, image: string)
    requires |prizes| <= MaxPrizes
    ensures |AddPrize(prizes, name, weight, image).prizes| <= MaxPrizes
  {
  }

  /** Removing the prize just added gives back the list before the add. */
  lemma RemoveUndoesAdd(prizes: seq<Prize>, name: string, weight: int, image: string)
    requires |prizes| < MaxPrizes
    ensures RemovePrize(AddPrize(prizes, name, weight, image).prizes, |prizes|) == Change(true, prizes)
  {
  }

  /** After removing position `i`, position `j` holds what position `j` or
      `j + 1` held before, and the positions past the end are gone. */
  lemma GetAfterRemove(prizes: seq<Prize>, i: int, j: int)
    requires 0 <= i < |prizes|
    ensures GetPrize(RemovePrize(prizes, i).prizes, j)
         == (if j < i then GetPrize(prizes, j) else GetPrize(prizes, j + 1))
  {
  }

  /** Reading back an updated position yields the new prize; every other read is unaffected. */
  lemma GetAfterUpdate(prizes: seq<Prize>, i: int, j: int, name: string, weight: int, image: string)
    ensures GetPrize(UpdatePrize(prizes, i, name, weight, image).prizes, j)
         == (if j == i && 0 <= i < |prizes| then Some(Prize(name, weight, image)) else GetPrize(prizes, j))
  {
  }

  // ------------------------------------------------------------------ draw

  /** The random inputs fit the list: the uniform index is a position when the
      total weight is not positive, otherwise `r` lies in `[1, total]`. */
  predicate ValidPick(prizes: seq<Prize>, r: int, uniform: int)
  {
    var total := Sum(GetWeights(prizes));
    prizes != [] ==> if total <= 0 then 0 <= uniform < |prizes| else 1 <= r <= total
  }

  /** `i` is the smallest position whose cumulative weight is at least `r`. */
  ghost predicate FirstAtLeast(ws: seq<int>, r: int, i: int)
  {
    && 0 <= i < |ws|
    && r <= Cum(ws, i)
    && forall j :: 0 <= j < i ==> Cum(ws, j) < r
  }

  /** The bucket search of `draw`: the first position whose cumulative weight
      is at least `r`, or 0 when there is none. */
  function BucketIndex(ws: seq<int>, r: int): (i: nat)
    ensures ws != [] ==> i < |ws|
    ensures (exists k :: FirstAtLeast(ws, r, k)) ==> FirstAtLeast(ws, r, i)
    ensures (forall j :: 0 <= j < |ws| ==> Cum(ws, j) < r) ==> i == 0
  {
    match FirstReaching(ws, p => r <= p)
    case Some(k) => k
    case None => 0
  }

  function Draw(prizes: seq<Prize>, r: int, uniform: int, timestamp: string): (res: Option<DrawResult>)
    requires ValidPick(prizes, r, uniform)
    ensures res.None? <==> prizes == []
    ensures res.Some? ==> 0 <= res.value.index < |prizes|
    ensures res.Some? ==> res.value.prize == Snapshot(prizes[res.value.index])
    ensures res.Some? ==> res.value.timestamp == timestamp
    ensures res.Some? && Sum(GetWeights(prizes)) <= 0 ==> res.value.index == uniform
    ensures res.Some? && Sum(GetWeights(prizes)) > 0 ==> FirstAtLeast(GetWeights(prizes), r, res.value.index)
  {
    if prizes == [] then None
    else
      var ws := GetWeights(prizes);
      CumLast(ws);
      var index := if Sum(ws) <= 0 then uniform else BucketIndex(ws, r);
      Some(DrawResult(Snapshot(prizes[index]), index, timestamp))
  }

  /** With a positive total, a prize of weight zero (or less) is never drawn:
      the cumulative weight jumps past `r` exactly at the drawn position. */
  lemma DrawNeverPicksZeroWeight(prizes: seq<Prize>, r: int, uniform: int, timestamp: string)
    requires ValidPick(prizes, r, uniform)
    requires prizes != [] && Sum(GetWeights(prizes)) > 0
    ensures Draw(prizes, r, uniform, timestamp).Some?
    ensures prizes[Draw(prizes, r, uniform, timestamp).value.index].weight > 0
  {
    var ws := GetWeights(prizes);
    var i := Draw(prizes, r, uniform, timestamp).value.index;
    if i > 0 {
      CumStep(ws, i);
    }
  }

  /** When `1 <= r <= total` some cumulative weight reaches `r` (the last one is
      the total), so the fall-back to position 0 never fires in `draw`, whatever
      the signs of the weights. */
  lemma DrawNeverFallsBack(ws: seq<int>, r: int)
    requires ws != [] && 1 <= r <= Sum(ws)
    ensures FirstReaching(ws, p => r <= p).Some?
  {
    CumLast(ws);
    assert r <= Cum(ws, |ws| - 1);
  }

  // ---------------------------------------------------------- load and save

  /** A string field: its value, `default` when the key is missing, `None` when
      the value is not a string. */
  function StringField(f: map<string, Json>, key: string, default: string): (r: Option<string>)
    ensures key !in f ==> r == Some(default)
    ensures key in f ==> (r.Some? <==> f[key].JStr?) && (r.Some? ==> r.value == f[key].s)
  {
    if key !in f then Some(default)
    else if f[key].JStr? then Some(f[key].s) else None
  }

  /** An integer field, read like `StringField`. */
  function IntField(f: map<string, Json>, key: string, default: int): (r: Option<int>)
    ensures key !in f ==> r == Some(default)
    ensures key in f ==> (r.Some? <==> f[key].JNum?) && (r.Some? ==> r.value == f[key].n)
  {
    if key !in f then Some(default)
    else if f[key].JNum? then Some(f[key].n) else None
  }

  /** One entry of the loaded `prizes` list with its missing fields filled in;
      `None` for an entry that is not an object or has a field of the wrong type. */
  function DecodePrize(j: Json): Option<Prize>
  {
    if !j.JObj? then None
    else
      var name := StringField(j.fields, "name", DefaultName);
      var weight := IntField(j.fields, "weight", DefaultWeight);
      var image := StringField(j.fields, "image", DefaultImage);
      if name.Some? && weight.Some? && image.Some? then Some(Prize(name.value, weight.value, image.value))
      else None
  }

  function DecodePrizes(items: seq<Json>): (r: Option<seq<Prize>>)
    ensures r.Some? <==> forall k :: 0 <= k < |items| ==> DecodePrize(items[k]).Some?
    ensures r.Some? ==> |r.value| == |items|
    ensures r.Some? ==> forall k :: 0 <= k < |items| ==> Some(r.value[k]) == DecodePrize(items[k])
  {
    if items == [] then Some([])
    else
      match (DecodePrize(items[0]), DecodePrizes(items[1..]))
      case (Some(p), Some(rest)) => Some([p] + rest)
      case _ => None
  }

  /** The loaded document holds a non-empty `prizes` list every entry of which decodes. */
  predicate Loadable(file: FileState<Json>)
  {
    && file.Parsed? && file.value.JObj?
    && "prizes" in file.value.fields && file.value.fields["prizes"].JArr?
    && var items := file.value.fields["prizes"].items;
    && items != []
    && forall k :: 0 <= k < |items| ==> DecodePrize(items[k]).Some?
  }

  /** Each field of `p` is the entry's field when present and the default otherwise. */
  ghost predicate Filled(entry: map<string, Json>, p: Prize)
  {
    && (if "name" in entry then entry["name"] == JStr(p.name) else p.name == DefaultName)
    && (if "weight" in entry then entry["weight"] == JNum(p.weight) else p.weight == DefaultWeight)
    && (if "image" in entry then entry["image"] == JStr(p.image) else p.image == DefaultImage)
  }

  /** `load_prizes`: the prizes of the configuration file with per-field
      defaults, or the three default prizes when there is no file, it cannot be
      read, it has no usable `prizes` list, or that list is empty. */
  function Load(file: FileState<Json>): (ps: seq<Prize>)
    ensures ps != []
    ensures !Loadable(file) ==> ps == DefaultPrizes()
    ensures Loadable(file) ==> |ps| == |file.value.fields["prizes"].items|
    ensures Loadable(file) ==> forall k :: 0 <= k < |ps| ==>
              Filled(file.value.fields["prizes"].items[k].fields, ps[k])
  {
    match file
    case Parsed(JObj(m)) =>
      if "prizes" in m && m["prizes"].JArr? then
        match DecodePrizes(m["prizes"].items)
        case Some(ps) => if ps != [] then ps else DefaultPrizes()
        case None => DefaultPrizes()
      else DefaultPrizes()
    case _ => DefaultPrizes()
  }

  /** The JSON object `save_prizes` writes for one prize. */
  function EncodePrize(p: Prize): Json
  {
    JObj(map["name" := JStr(p.name), "weight" := JNum(p.weight), "image" := JStr(p.image)])
  }

  function EncodePrizes(ps: seq<Prize>): (items: seq<Json>)
    ensures |items| == |ps|
    ensures forall k :: 0 <= k < |ps| ==> items[k] == EncodePrize(ps[k])
  {
    if ps == [] then [] else [EncodePrize(ps[0])] + EncodePrizes(ps[1..])
  }

  /** `save_prizes`: the document written back, which is the existing one with
      only its `prizes` key replaced, or a fresh object when there was no
      readable file. `None` when the existing document is not an object and
      the assignment to its `prizes` key fails. */
  function SaveDocument(existing: FileState<Json>, prizes: seq<Prize>): (r: Option<Json>)
    ensures r.None? <==> existing.Parsed? && !existing.value.JObj?
    ensures r.Some? ==> r.value.JObj? && "prizes" in r.value.fields
    ensures r.Some? ==> r.value.fields["prizes"] == JArr(EncodePrizes(prizes))
    ensures r.Some? && existing.Parsed? ==> r.value.fields.Keys == existing.value.fields.Keys + {"prizes"}
    ensures r.Some? && existing.Parsed? ==>
              forall k :: k in existing.value.fields && k != "prizes" ==> r.value.fields[k] == existing.value.fields[k]
    ensures r.Some? && !existing.Parsed? ==> r.value.fields.Keys == {"prizes"}
  {
    var entry := JArr(EncodePrizes(prizes));
    match existing
    case Parsed(JObj(m)) => Some(JObj(m["prizes" := entry]))
    case Parsed(_) => None
    case _ => Some(JObj(map["prizes" := entry]))
  }

  /** The document `load_prizes` writes while loading. Whenever it falls back
      to the defaults, `add_default_prizes` saves them through `save_prizes`
      into whatever the file holds: an unreadable file is replaced by
      `{prizes: defaults}`, an object keeps its other keys, and a document
      that is not an object is left alone. A usable list is not written. */
  function LoadWrite(file: FileState<Json>): (w: Option<Json>)
    ensures w.None? <==> Loadable(file) || (file.Parsed? && !file.value.JObj?)
    ensures w.Some? ==> Load(Parsed(w.value)) == Load(file) == DefaultPrizes()
    ensures w.Some? ==> w.value.JObj? && "prizes" in w.value.fields
    ensures w.Some? ==> w.value.fields["prizes"] == JArr(EncodePrizes(DefaultPrizes()))
    ensures w.Some? && file.Parsed? ==> w.value.fields.Keys == file.value.fields.Keys + {"prizes"}
    ensures w.Some? && file.Parsed? ==>
              forall k :: k in file.value.fields && k != "prizes" ==> w.value.fields[k] == file.value.fields[k]
    ensures w.Some? && !file.Parsed? ==> w.value.fields.Keys == {"prizes"}
  {
    if Loadable(file) then None
    else
      var doc := SaveDocument(file, DefaultPrizes());
      if doc.Some? then SaveThenLoad(file, DefaultPrizes()); doc else doc
  }

  /** Decoding an encoded prize gives the prize back. */
  lemma DecodeEncodePrize(p: Prize)
    ensures DecodePrize(EncodePrize(p)) == Some(p)
  {
    var f := EncodePrize(p).fields;
    assert StringField(f, "name", DefaultName) == Some(p.name);
    assert IntField(f, "weight", DefaultWeight) == Some(p.weight);
    assert StringField(f, "image", DefaultImage) == Some(p.image);
  }

  /** Saving a non-empty list and loading the written document gives the same
      list, field by field. */
  lemma SaveThenLoad(existing: FileState<Json>, prizes: seq<Prize>)
    requires prizes != []
    requires SaveDocument(existing, prizes).Some?
    ensures Load(Parsed(SaveDocument(existing, prizes).value)) == prizes
  {
    var items := EncodePrizes(prizes);
    forall k | 0 <= k < |items|
      ensures DecodePrize(items[k]) == Some(prizes[k])
    {
      DecodeEncodePrize(prizes[k]);
    }
    var ps := DecodePrizes(items).value;
    assert |ps| == |prizes|;
    assert forall k :: 0 <= k < |ps| ==> ps[k] == prizes[k];
  }

  /** A saved empty list does not come back: loading it yields the defaults. */
  lemma SaveEmptyThenLoad(existing: FileState<Json>)
    requires SaveDocument(existing, []).Some?
    ensures Load(Parsed(SaveDocument(existing, []).value)) == DefaultPrizes()
  {
  }

  /** `get_weights` after loading is `prize.get('weight', 1)` on each loaded entry. */
  lemma LoadedWeights(file: FileState<Json>)
    requires Loadable(file)
    ensures var items := file.value.fields["prizes"].items;
            var ws := GetWeights(Load(file));
            |ws| == |items| &&
            forall k :: 0 <= k < |items| ==>
              if "weight" in items[k].fields then items[k].fields["weight"] == JNum(ws[k]) else ws[k] == 1
  {
  }
}
