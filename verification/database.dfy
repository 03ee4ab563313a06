/** The JSON record store of logic/database.py. A file holds a list of
    records (JSON objects); every operation loads the whole list, works on it
    and, when it changed something, writes it back. Here a file is the value
    it holds and each operation returns the list it would write. */
module Database {
  import opened Wrappers

  /** The JSON values records hold in this system: integers, texts and
      null. */
  datatype Value = VInt(i: int) | VStr(s: string) | VNull

  type Record = map<string, Value>

  const ID: string := "id"

  /** `d.get(key)`: a missing key reads as `None`. */
  function Get(d: Record, key: string): Value {
    if key in d then d[key] else VNull
  }

  /** What a file can be found to hold. */
  datatype Fichier = Absent | Illisible | Present(data: seq<Record>)

  /** The exceptions the operations raise. `Generale` is the plain
      `Exception` that wraps lower errors. */
  datatype Erreur = Generale | Decodage | IdExistant | TypeIncompatible

  /** `load_json`: a missing file is first raised as FileNotFoundError, then
      caught by the catch-all handler and raised again as a plain Exception;
      malformed JSON keeps its decoding error. */
  function LoadJson(f: Fichier): Result<seq<Record>, Erreur> {
    match f
    case Absent => Err(Generale)
    case Illisible => Err(Decodage)
    case Present(data) => Ok(data)
  }

  predicate AIdDe(d: Record, id: int) {
    Get(d, ID) == VInt(id)
  }

  // ---------------------------------------------------------------------
  // add_data
  // ---------------------------------------------------------------------

  /** `d.get('id', 0)`: a missing id counts as 0, an explicit null does not. */
  function IdPourMax(d: Record): Value {
    if ID in d then d[ID] else VInt(0)
  }

  /** `max(xs)` of a non-empty list of integers. */
  function Max(xs: seq<int>): (m: int)
    requires |xs| > 0
  {
    if |xs| == 1 then xs[0]
    else
      var r := Max(xs[1..]);
      if xs[0] >= r then xs[0] else r
  }

  lemma {:induction false} MaxMeaning(xs: seq<int>)
    requires |xs| > 0
    ensures forall i :: 0 <= i < |xs| ==> xs[i] <= Max(xs)
    ensures Max(xs) in xs
  {
    if |xs| > 1 {
      MaxMeaning(xs[1..]);
      forall i | 1 <= i < |xs|
        ensures xs[i] <= Max(xs)
      {
        assert xs[i] == xs[1..][i - 1];
      }
    }
  }

  /** The ids `max` compares, or `None` when one of them is not an integer,
      in which case Python's comparison or the `+ 1` raises TypeError. */
  function IdsEntiers(data: seq<Record>): (r: Option<seq<int>>)
    ensures r.Some? ==> |r.value| == |data|
  {
    if |data| == 0 then Some([])
    else
      match IdPourMax(data[0])
      case VInt(n) =>
        (match IdsEntiers(data[1..])
         case Some(reste) => Some([n] + reste)
         case None => None)
      case _ => None
  }

  lemma {:induction false} IdsEntiersMeaning(data: seq<Record>)
    ensures IdsEntiers(data).None? <==> exists i :: 0 <= i < |data| && !IdPourMax(data[i]).VInt?
    ensures IdsEntiers(data).Some? ==>
      forall i :: 0 <= i < |data| ==> IdPourMax(data[i]) == VInt(IdsEntiers(data).value[i])
  {
    if |data| > 0 {
      IdsEntiersMeaning(data[1..]);
      if exists i :: 0 <= i < |data| - 1 && !IdPourMax(data[1..][i]).VInt? {
        var i :| 0 <= i < |data| - 1 && !IdPourMax(data[1..][i]).VInt?;
        assert data[i + 1] == data[1..][i];
      }
      if IdsEntiers(data).Some? {
        forall i | 1 <= i < |data|
          ensures IdPourMax(data[i]) == VInt(IdsEntiers(data).value[i])
        {
          assert data[i] == data[1..][i - 1];
        }
      }
    }
  }

  /** The id given to an item that has none: the largest id plus one, with
      missing ids counted as 0 and 0 for an empty file. */
  function NouvelId(data: seq<Record>): Result<int, Erreur> {
    match IdsEntiers(data)
    case None => Err(TypeIncompatible)
    case Some(ids) => Ok(if |ids| == 0 then 1 else Max(ids) + 1)
  }

  /** `any(d.get('id') == item['id'] for d in data)`. */
  predicate IdPris(data: seq<Record>, v: Value) {
    exists i :: 0 <= i < |data| && Get(data[i], ID) == v
  }

  /** `add_data(filename, item)`: the item as returned (with its id) and the
      list written back. */
  function AddData(f: Fichier, item: Record): Result<(Record, seq<Record>), Erreur> {
    match LoadJson(f)
    case Err(e) => Err(e)
    case Ok(data) =>
      var avecId :=
        if ID in item then Ok(item)
        else
          match NouvelId(data)
          case Err(e) => Err(e)
          case Ok(n) => Ok(item[ID := VInt(n)]);
      match avecId
      case Err(e) => Err(e)
      case Ok(x) =>
        if IdPris(data, x[ID]) then Err(IdExistant)
        else Ok((x, data + [x]))
  }

  /** The id generated for an item without one is larger than every integer
      id in the file, so it is never taken. */
  lemma NouvelIdLibre(data: seq<Record>)
    requires NouvelId(data).Ok?
    ensures forall i :: 0 <= i < |data| && Get(data[i], ID).VInt? ==> Get(data[i], ID).i < NouvelId(data).value
    ensures !IdPris(data, VInt(NouvelId(data).value))
  {
    IdsEntiersMeaning(data);
    var ids := IdsEntiers(data).value;
    if |ids| > 0 {
      MaxMeaning(ids);
    }
    forall i | 0 <= i < |data| && Get(data[i], ID).VInt?
      ensures Get(data[i], ID).i < NouvelId(data).value
    {
      assert IdPourMax(data[i]) == VInt(ids[i]);
    }
  }

  /** Every outcome of `add_data`: a missing or unreadable file is an error;
      an item without id gets the next id, unless some stored id is not an
      integer (TypeError); an id already present is refused (ValueError);
      otherwise the item, with its id, is appended at the end and returned. */
  lemma AddDataCases(f: Fichier, item: Record)
    ensures f.Absent? ==> AddData(f, item) == Err(Generale)
    ensures f.Illisible? ==> AddData(f, item) == Err(Decodage)
    ensures f.Present? && ID !in item && IdsEntiers(f.data).None? ==> AddData(f, item) == Err(TypeIncompatible)
    ensures f.Present? && ID !in item && IdsEntiers(f.data).Some? ==>
      AddData(f, item) == Ok((item[ID := VInt(NouvelId(f.data).value)], f.data + [item[ID := VInt(NouvelId(f.data).value)]]))
    ensures f.Present? && ID in item ==>
      AddData(f, item) == if IdPris(f.data, item[ID]) then Err(IdExistant) else Ok((item, f.data + [item]))
  {
    if f.Present? && ID !in item && IdsEntiers(f.data).Some? {
      NouvelIdLibre(f.data);
    }
  }

  /** `add_data` as its missing-file handler means it to behave: a missing
      file is created holding the item alone, with id 1 when the item has
      none. Other files are handled as by `AddData`. */
  function AddDataCorrige(f: Fichier, item: Record): Result<(Record, seq<Record>), Erreur> {
    if f.Absent? then
      var x := if ID in item then item else item[ID := VInt(1)];
      Ok((x, [x]))
    else AddData(f, item)
  }

  /** As written, adding to a missing file always fails, so the creation
      branch never runs; the corrected operation creates the file, and the
      item can then be found under its id. */
  lemma AddDataFichierAbsent(item: Record)
    ensures AddData(Absent, item) == Err(Generale)
    ensures AddDataCorrige(Absent, item).Ok?
    ensures var (x, data) := AddDataCorrige(Absent, item).value;
      && data == [x] && IdsUniques(data)
      && (ID !in item ==> x == item[ID := VInt(1)] && GetById(Present(data), 1) == Some(x))
      && (ID in item ==> x == item)
  {
    var (x, data) := AddDataCorrige(Absent, item).value;
    if ID !in item {
      assert AIdDe(data[0], 1);
    }
  }

  /** Ids present in the list are pairwise distinct. */
  predicate IdsUniques(data: seq<Record>) {
    forall i, j :: 0 <= i < j < |data| && ID in data[i] && ID in data[j] ==> data[i][ID] != data[j][ID]
  }

  /** A successful add keeps ids unique, and the added item can then be found
      under its id when that id is an integer. */
  lemma AddDataPreservesIds(f: Fichier, item: Record)
    requires f.Present? && IdsUniques(f.data)
    requires AddData(f, item).Ok?
    ensures IdsUniques(AddData(f, item).value.1)
    ensures var (x, data2) := AddData(f, item).value;
      x[ID].VInt? ==> GetById(Present(data2), x[ID].i) == Some(x)
  {
    AddDataCases(f, item);
    var (x, data2) := AddData(f, item).value;
    var data := f.data;
    assert !IdPris(data, x[ID]);
    forall i, j | 0 <= i < j < |data2| && ID in data2[i] && ID in data2[j]
      ensures data2[i][ID] != data2[j][ID]
    {
      if j == |data| {
        assert Get(data[i], ID) != x[ID];
      }
    }
    if x[ID].VInt? {
      PremierAvecIdMeaning(data2, x[ID].i);
      assert AIdDe(data2[|data|], x[ID].i);
      forall k | 0 <= k < |data|
        ensures !AIdDe(data2[k], x[ID].i)
      {
        assert data2[k] == data[k];
      }
    }
  }

  // ---------------------------------------------------------------------
  // Lookups: get_by_id, exists
  // ---------------------------------------------------------------------

  /** Position of the first record whose id is `id`. */
  function PremierAvecId(data: seq<Record>, id: int): Option<nat> {
    if |data| == 0 then None
    else if AIdDe(data[0], id) then Some(0)
    else match PremierAvecId(data[1..], id)
      case None => None
      case Some(k) => Some(k + 1)
  }

  lemma {:induction false} PremierAvecIdMeaning(data: seq<Record>, id: int)
    ensures var r := PremierAvecId(data, id);
      && (r.None? <==> forall k :: 0 <= k < |data| ==> !AIdDe(data[k], id))
      && (r.Some? ==> (r.value < |data| && AIdDe(data[r.value], id) &&
            forall k :: 0 <= k < r.value ==> !AIdDe(data[k], id)))
  {
    if |data| > 0 && !AIdDe(data[0], id) {
      PremierAvecIdMeaning(data[1..], id);
      forall k | 1 <= k < |data|
        ensures data[k] == data[1..][k - 1]
      {
      }
    }
  }

  /** `get_by_id(filename, item_id)`: any load error is printed and reads as
      `None`. */
  function GetById(f: Fichier, id: int): Option<Record> {
    match LoadJson(f)
    case Err(_) => None
    case Ok(data) =>
      match PremierAvecId(data, id)
      case None => None
      case Some(k) => if k < |data| then Some(data[k]) else None
  }

  /** `exists(filename, item_id)`. */
  function Exists(f: Fichier, id: int): bool {
    GetById(f, id).Some?
  }

  /** A lookup finds the first record carrying the id; it finds nothing
      exactly when the file cannot be loaded or no record carries the id,
      and `exists` holds exactly when it finds something. */
  lemma GetByIdMeaning(f: Fichier, id: int)
    ensures GetById(f, id).None? <==> !f.Present? || forall k :: 0 <= k < |f.data| ==> !AIdDe(f.data[k], id)
    ensures GetById(f, id).Some? ==> exists k :: (0 <= k < |f.data| && GetById(f, id).value == f.data[k] &&
      AIdDe(f.data[k], id) && forall j :: 0 <= j < k ==> !AIdDe(f.data[j], id))
    ensures Exists(f, id) <==> f.Present? && exists k :: 0 <= k < |f.data| && AIdDe(f.data[k], id)
  {
    if f.Present? {
      PremierAvecIdMeaning(f.data, id);
    }
  }

  // ---------------------------------------------------------------------
  // update_data
  // ---------------------------------------------------------------------

  /** `data[i].update(new_data)` followed by `data[i]['id'] = item_id`. */
  function Fusion(d: Record, nouveau: Record, id: int): Record {
    (d + nouveau)[ID := VInt(id)]
  }

  /** `update_data(filename, item_id, new_data)`: the updated record or
      `None`, and the list afterwards. Every error is raised again as a plain
      Exception. */
  function UpdateData(f: Fichier, id: int, nouveau: Record): Result<(Option<Record>, seq<Record>), Erreur> {
    match LoadJson(f)
    case Err(_) => Err(Generale)
    case Ok(data) =>
      match PremierAvecId(data, id)
      case None => Ok((None, data))
      case Some(k) =>
        if k < |data| then
          var r := Fusion(data[k], nouveau, id);
          Ok((Some(r), data[k := r]))
        else Ok((None, data))
  }

  /** The first record with the id takes the new fields, keeps the keys it
      had that the update does not mention, and keeps its id; every other
      record is untouched. Without such a record nothing changes and the
      answer is `None`. */
  lemma UpdateDataMeaning(f: Fichier, id: int, nouveau: Record)
    ensures !f.Present? ==> UpdateData(f, id, nouveau) == Err(Generale)
    ensures f.Present? && (forall k :: 0 <= k < |f.data| ==> !AIdDe(f.data[k], id)) ==>
      UpdateData(f, id, nouveau) == Ok((None, f.data))
    ensures f.Present? && UpdateData(f, id, nouveau).value.0.Some? ==>
      exists k :: (0 <= k < |f.data| && AIdDe(f.data[k], id) &&
        (forall j :: 0 <= j < k ==> !AIdDe(f.data[j], id)) &&
        var r := UpdateData(f, id, nouveau).value.0.value;
        && UpdateData(f, id, nouveau).value.1 == f.data[k := r]
        && r[ID] == VInt(id)
        && (forall key :: key in nouveau && key != ID ==> key in r && r[key] == nouveau[key])
        && (forall key :: key in f.data[k] && key !in nouveau ==> key in r && r[key] == f.data[k][key])
        && r.Keys == f.data[k].Keys + nouveau.Keys + {ID})
    ensures f.Present? && (exists k :: 0 <= k < |f.data| && AIdDe(f.data[k], id)) ==>
      UpdateData(f, id, nouveau).value.0.Some?
  {
    if f.Present? {
      PremierAvecIdMeaning(f.data, id);
      var data := f.data;
      if PremierAvecId(data, id).Some? {
        var k := PremierAvecId(data, id).value;
        assert ID in data[k];
      }
    }
  }

  /** An update keeps ids unique and the updated record is then what a lookup
      of its id returns. */
  lemma UpdateDataPreservesIds(f: Fichier, id: int, nouveau: Record)
    requires f.Present? && IdsUniques(f.data)
    requires UpdateData(f, id, nouveau).value.0.Some?
    ensures IdsUniques(UpdateData(f, id, nouveau).value.1)
    ensures GetById(Present(UpdateData(f, id, nouveau).value.1), id) == UpdateData(f, id, nouveau).value.0
  {
    var data := f.data;
    PremierAvecIdMeaning(data, id);
    var k := PremierAvecId(data, id).value;
    var (o, data2) := UpdateData(f, id, nouveau).value;
    assert ID in data[k] && data[k][ID] == VInt(id);
    assert data2[k][ID] == VInt(id);
    forall i, j | 0 <= i < j < |data2| && ID in data2[i] && ID in data2[j]
      ensures data2[i][ID] != data2[j][ID]
    {
      assert ID in data[i] && ID in data[j];
    }
    PremierAvecIdMeaning(data2, id);
    forall j | 0 <= j < k
      ensures !AIdDe(data2[j], id)
    {
      assert data2[j] == data[j];
    }
  }

  // ---------------------------------------------------------------------
  // delete_data
  // ---------------------------------------------------------------------

  /** `[item for item in data if item.get('id') != item_id]`. */
  function SansId(data: seq<Record>, id: int): seq<Record> {
    if |data| == 0 then []
    else (if AIdDe(data[0], id) then [] else [data[0]]) + SansId(data[1..], id)
  }

  lemma {:induction false} SansIdMeaning(data: seq<Record>, id: int)
    ensures |SansId(data, id)| <= |data|
    ensures forall d :: d in SansId(data, id) <==> d in data && !AIdDe(d, id)
    ensures |SansId(data, id)| == |data| <==> forall k :: 0 <= k < |data| ==> !AIdDe(data[k], id)
    ensures (forall k :: 0 <= k < |data| ==> !AIdDe(data[k], id)) ==> SansId(data, id) == data
  {
    if |data| > 0 {
      SansIdMeaning(data[1..], id);
      assert data == [data[0]] + data[1..];
      if forall k :: 0 <= k < |data| ==> !AIdDe(data[k], id) {
        forall k | 0 <= k < |data| - 1
          ensures !AIdDe(data[1..][k], id)
        {
          assert data[1..][k] == data[k + 1];
        }
      }
      if !AIdDe(data[0], id) && exists k :: 0 <= k < |data| - 1 && AIdDe(data[1..][k], id) {
        var k :| 0 <= k < |data| - 1 && AIdDe(data[1..][k], id);
        assert data[k + 1] == data[1..][k];
      }
    }
  }

  /** `delete_data(filename, item_id)`: whether something was removed, and
      the list afterwards. Every error is raised again as a plain
      Exception. */
  function DeleteData(f: Fichier, id: int): Result<(bool, seq<Record>), Erreur> {
    match LoadJson(f)
    case Err(_) => Err(Generale)
    case Ok(data) =>
      var reste := SansId(data, id);
      if |reste| < |data| then Ok((true, reste)) else Ok((false, data))
  }

  /** Every record with the id goes and every other stays; the answer is
      true exactly when some record had the id; afterwards a lookup of the
      id finds nothing. */
  lemma DeleteDataMeaning(f: Fichier, id: int)
    ensures !f.Present? <==> DeleteData(f, id) == Err(Generale)
    ensures f.Present? ==>
      var (ok, data2) := DeleteData(f, id).value;
      && (ok <==> exists k :: 0 <= k < |f.data| && AIdDe(f.data[k], id))
      && data2 == SansId(f.data, id)
      && (forall d :: d in data2 <==> d in f.data && !AIdDe(d, id))
      && GetById(Present(data2), id).None?
  {
    if f.Present? {
      SansIdMeaning(f.data, id);
      var data2 := DeleteData(f, id).value.1;
      PremierAvecIdMeaning(data2, id);
      forall k | 0 <= k < |data2|
        ensures !AIdDe(data2[k], id)
      {
        assert data2[k] in data2;
      }
    }
  }

  // ---------------------------------------------------------------------
  // filter_data
  // ---------------------------------------------------------------------

  /** One `key=value` keyword criterion. */
  datatype Critere = Critere(cle: string, valeur: Value)

  predicate Satisfait(d: Record, c: Critere) {
    Get(d, c.cle) == c.valeur
  }

  /** `[item for item in filtered if item.get(key) == value]`. */
  function Selection(data: seq<Record>, c: Critere): seq<Record> {
    if |data| == 0 then []
    else (if Satisfait(data[0], c) then [data[0]] else []) + Selection(data[1..], c)
  }

  /** The criteria applied one after the other, in keyword order. */
  function Filtrer(data: seq<Record>, cs: seq<Critere>): seq<Record>
    decreases |cs|
  {
    if |cs| == 0 then data else Filtrer(Selection(data, cs[0]), cs[1..])
  }

  /** `filter_data(filename, **kwargs)`: any load error is printed and reads
      as an empty list. */
  function FilterData(f: Fichier, cs: seq<Critere>): seq<Record> {
    match LoadJson(f)
    case Err(_) => []
    case Ok(data) => Filtrer(data, cs)
  }

  /** Meets every criterion. */
  predicate Tous(d: Record, cs: seq<Critere>) {
    forall j :: 0 <= j < |cs| ==> Satisfait(d, cs[j])
  }

  /** Reference definition: one pass over the file keeping, in order, the
      records that meet every criterion. */
  function Garder(data: seq<Record>, cs: seq<Critere>): seq<Record> {
    if |data| == 0 then []
    else (if Tous(data[0], cs) then [data[0]] else []) + Garder(data[1..], cs)
  }

  lemma TousCons(d: Record, c: Critere, cs: seq<Critere>)
    ensures Tous(d, [c] + cs) <==> Satisfait(d, c) && Tous(d, cs)
  {
    var l := [c] + cs;
    if Satisfait(d, c) && Tous(d, cs) {
      forall j | 0 <= j < |l|
        ensures Satisfait(d, l[j])
      {
        if j > 0 { assert l[j] == cs[j - 1]; }
      }
    }
    if Tous(d, l) {
      assert Satisfait(d, l[0]);
      forall j | 0 <= j < |cs|
        ensures Satisfait(d, cs[j])
      {
        assert l[j + 1] == cs[j];
      }
    }
  }

  /** Selecting on `c` first, then keeping what meets `cs`, is keeping what
      meets `[c] + cs`. */
  lemma {:induction false} GarderSelection(data: seq<Record>, c: Critere, cs: seq<Critere>)
    ensures Garder(Selection(data, c), cs) == Garder(data, [c] + cs)
  {
    if |data| > 0 {
      GarderSelection(data[1..], c, cs);
      TousCons(data[0], c, cs);
      var s := Selection(data, c);
      if Satisfait(data[0], c) {
        assert s == [data[0]] + Selection(data[1..], c);
        assert s[1..] == Selection(data[1..], c);
        assert Garder(s, cs) == (if Tous(data[0], cs) then [data[0]] else []) + Garder(s[1..], cs);
      } else {
        assert s == Selection(data[1..], c);
      }
    }
  }

  /** Applying the criteria one after the other keeps, in file order,
      exactly the records that meet them all. */
  lemma {:induction false} FiltrerGarder(data: seq<Record>, cs: seq<Critere>)
    ensures Filtrer(data, cs) == Garder(data, cs)
    decreases |cs|
  {
    if |cs| == 0 {
      GarderTout(data, cs);
    } else {
      FiltrerGarder(Selection(data, cs[0]), cs[1..]);
      GarderSelection(data, cs[0], cs[1..]);
      assert [cs[0]] + cs[1..] == cs;
    }
  }

  lemma {:induction false} GarderTout(data: seq<Record>, cs: seq<Critere>)
    requires |cs| == 0
    ensures Garder(data, cs) == data
  {
    if |data| > 0 {
      GarderTout(data[1..], cs);
    }
  }

  lemma {:induction false} GarderMembres(data: seq<Record>, cs: seq<Critere>)
    ensures forall d :: d in Garder(data, cs) <==> d in data && Tous(d, cs)
    ensures |Garder(data, cs)| <= |data|
  {
    if |data| > 0 {
      GarderMembres(data[1..], cs);
      assert data == [data[0]] + data[1..];
    }
  }

  /** Filtering keeps, in file order, exactly the records that meet every
      criterion; without criteria it keeps everything; a missing or
      unreadable file gives nothing. */
  lemma FilterDataMeaning(f: Fichier, cs: seq<Critere>)
    ensures !f.Present? ==> FilterData(f, cs) == []
    ensures f.Present? ==> FilterData(f, cs) == Garder(f.data, cs)
    ensures f.Present? && |cs| == 0 ==> FilterData(f, cs) == f.data
    ensures f.Present? ==> forall d :: d in FilterData(f, cs) <==> d in f.data && Tous(d, cs)
  {
    if f.Present? {
      FiltrerGarder(f.data, cs);
      GarderMembres(f.data, cs);
      if |cs| == 0 {
        GarderTout(f.data, cs);
      }
    }
  }
}
