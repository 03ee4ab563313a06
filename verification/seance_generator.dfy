/** The session-demand generator of logic/seance_generator.py: every module
    whose cohort (filière) is known yields one lecture for the whole cohort,
    one tutorial per tutorial group and, when the module has labs, one lab
    per lab group. Cohorts of the DEUST programmes are split into groups of
    at most 50 (tutorials) and 30 (labs); the others stay whole. The file
    reads and the final write are left to the caller: modules and cohorts
    come in as sequences and the sessions go out as one. */
module SeanceGenerator {
  import opened Wrappers
  import Text
  import Models

  /** One row of seances.json, the placer's input. */
  datatype Seance = Seance(
    id: int, moduleNom: string, typ: Models.TypeSeance, enseignant: string,
    filiere: string, groupe: string, effectif: int, duree: int, priorite: int)

  /** A cohort record; every field read through `.get` may be absent
      (`None`). A field present with a JSON null is not represented. */
  datatype Filiere = Filiere(
    id: int, code: Option<string>, nom: Option<string>,
    niveau: Option<string>, effectif: Option<int>)

  /** A module record; `code` and `nom` are read with `[...]` and so are
      always present. */
  datatype ModuleDef = ModuleDef(
    code: string, nom: string, filiereId: Option<int>, enseignant: Option<string>,
    nbSeancesCours: Option<int>, nbSeancesTd: Option<int>, nbSeancesTp: Option<int>)

  const DUREE := 90
  const TD_MAX := 50
  const TP_MAX := 30
  const SPLIT_KEYWORDS: seq<string> := ["deust", "mipc", "bcg", "gegm"]

  // ---------------------------------------------------------------------
  // Cohort lookup and split decision
  // ---------------------------------------------------------------------

  /** `{f['id']: f for f in filieres}`: a later cohort with the same id
      replaces an earlier one. */
  function FiliereMap(fs: seq<Filiere>): map<int, Filiere> {
    if |fs| == 0 then map[]
    else FiliereMap(fs[..|fs| - 1])[fs[|fs| - 1].id := fs[|fs| - 1]]
  }

  /** The map holds exactly the ids of the list, each bound to the last
      cohort that carries it. */
  lemma {:induction false} FiliereMapMeaning(fs: seq<Filiere>, k: int)
    requires 0 <= k < |fs|
    ensures fs[k].id in FiliereMap(fs)
    ensures (forall j :: k < j < |fs| ==> fs[j].id != fs[k].id) ==>
      FiliereMap(fs)[fs[k].id] == fs[k]
  {
    if k < |fs| - 1 {
      FiliereMapMeaning(fs[..|fs| - 1], k);
    }
  }

  lemma {:induction false} FiliereMapKeys(fs: seq<Filiere>, id: int)
    ensures id in FiliereMap(fs) <==> exists k :: 0 <= k < |fs| && fs[k].id == id
  {
    if |fs| > 0 {
      FiliereMapKeys(fs[..|fs| - 1], id);
      if id in FiliereMap(fs[..|fs| - 1]) {
        var k :| 0 <= k < |fs| - 1 && fs[..|fs| - 1][k].id == id;
        assert fs[k].id == id;
      }
      if exists k :: 0 <= k < |fs| && fs[k].id == id {
        var k :| 0 <= k < |fs| && fs[k].id == id;
        if k < |fs| - 1 {
          assert fs[..|fs| - 1][k].id == id;
        }
      }
    }
  }

  /** `not filiere_id or filiere_id not in filieres_map` is false: the id
      is present, non-zero and known. */
  predicate FiliereConnue(filiereId: Option<int>, m: map<int, Filiere>) {
    filiereId.Some? && filiereId.value != 0 && filiereId.value in m
  }

  function Effectif(f: Filiere): int { f.effectif.GetOr(30) }

  function Code(f: Filiere): string { f.code.GetOr("UNKNOWN") }

  predicate MentionsKeyword(s: string) {
    exists k :: k in SPLIT_KEYWORDS && Text.Contains(s, k)
  }

  /** A cohort is split when its level is "deust" or its name or code
      mentions one of the DEUST programme keywords (case-insensitively). */
  predicate EstDecoupee(f: Filiere) {
    Text.Lower(f.niveau.GetOr("")) == "deust"
    || MentionsKeyword(Text.Lower(f.nom.GetOr("")))
    || MentionsKeyword(Text.Lower(Code(f)))
  }

  /** The split test ignores letter case: lower-casing the cohort's level,
      name and code changes nothing. */
  lemma EstDecoupeeCasse(f: Filiere)
    ensures EstDecoupee(f.(niveau := Some(Text.Lower(f.niveau.GetOr(""))),
                           nom := Some(Text.Lower(f.nom.GetOr(""))),
                           code := Some(Text.Lower(Code(f))))) == EstDecoupee(f)
  {
    Text.LowerIdempotent(f.niveau.GetOr(""));
    Text.LowerIdempotent(f.nom.GetOr(""));
    Text.LowerIdempotent(Code(f));
  }

  /** A cohort whose level is "DEUST", or whose code is "GEGM-1", is split. */
  lemma EstDecoupeeExemples(f: Filiere)
    ensures f.niveau == Some("DEUST") ==> EstDecoupee(f)
    ensures f.code == Some("GEGM-1") ==> EstDecoupee(f)
  {
    if f.code == Some("GEGM-1") {
      assert Text.Lower("GEGM-1") == "gegm-1";
      assert Text.OccursAt("gegm-1", "gegm", 0);
      assert Text.Contains("gegm-1", "gegm");
      assert SPLIT_KEYWORDS[3] == "gegm";
      assert MentionsKeyword(Text.Lower(Code(f)));
    }
    if f.niveau == Some("DEUST") {
      assert Text.Lower("DEUST") == "deust";
    }
  }

  // ---------------------------------------------------------------------
  // Group counts
  // ---------------------------------------------------------------------

  /** `math.ceil(a / b)` for a positive divisor. */
  function CeilDiv(a: int, b: int): (r: int)
    requires b > 0
    ensures (r - 1) * b < a <= r * b
  {
    -((-a) / b)
  }

  lemma MulStrict(a: int, b: int, n: int)
    requires n > 0 && a * n < b * n
    ensures a < b
  {
    assert (b - a) * n > 0;
  }

  /** Splitting `e` students into `n = ceil(e / cap)` groups of
      `ceil(e / n)` each: when there is at least one group, no group exceeds
      `cap` and the groups together seat the whole cohort. */
  lemma GroupBound(e: int, cap: int)
    requires cap > 0 && e >= 1
    ensures CeilDiv(e, cap) >= 1
    ensures CeilDiv(e, CeilDiv(e, cap)) <= cap
    ensures CeilDiv(e, cap) * CeilDiv(e, CeilDiv(e, cap)) >= e
  {
    var n := CeilDiv(e, cap);
    CeilDivPositive(e, cap);
    var r := CeilDiv(e, n);
    assert n * cap == cap * n;
    MulStrict(r - 1, cap, n);
  }

  /** There is at least one group exactly when there is at least one
      student. */
  lemma CeilDivPositive(e: int, cap: int)
    requires cap > 0
    ensures CeilDiv(e, cap) >= 1 <==> e >= 1
  {
    var n := CeilDiv(e, cap);
    if n >= 1 {
      MulNonNeg(n - 1, cap);
    } else {
      MulNonNeg(-n, cap);
    }
  }

  lemma MulNonNeg(a: int, b: int)
    requires a >= 0 && b >= 0
    ensures a * b >= 0
  {
  }

  /** `(nb_groupes_td, nb_groupes_tp)` for a cohort. */
  function NbGroupes(f: Filiere): (int, int) {
    if EstDecoupee(f) then (CeilDiv(Effectif(f), TD_MAX), CeilDiv(Effectif(f), TP_MAX))
    else (1, 1)
  }

  /** A split cohort gets `ceil(e / 50)` tutorial and `ceil(e / 30)` lab
      groups; a whole cohort gets one of each. A split cohort of at least one
      student has at least one group of each kind. */
  lemma NbGroupesMeaning(f: Filiere)
    ensures EstDecoupee(f) ==>
      (NbGroupes(f).0 - 1) * TD_MAX < Effectif(f) <= NbGroupes(f).0 * TD_MAX &&
      (NbGroupes(f).1 - 1) * TP_MAX < Effectif(f) <= NbGroupes(f).1 * TP_MAX
    ensures !EstDecoupee(f) ==> NbGroupes(f) == (1, 1)
    ensures Effectif(f) >= 1 ==> NbGroupes(f).0 >= 1 && NbGroupes(f).1 >= 1
  {
  }

  // ---------------------------------------------------------------------
  // Session emission
  // ---------------------------------------------------------------------

  /** `f"{code}-G{g}" if n > 1 else code`. */
  function NomGroupe(code: string, g: nat, n: int): string {
    if n > 1 then code + "-G" + Text.NatToString(g) else code
  }

  /** The fields every session of one module and kind shares. */
  datatype Gabarit = Gabarit(
    moduleNom: string, typ: Models.TypeSeance, enseignant: string,
    code: string, priorite: int)

  /** The loop `for g in range(g, n + 1)`, one session per group, with ids
      counting up from `id`. */
  function Groupes(t: Gabarit, e: int, n: int, g: nat, id: int): (r: seq<Seance>)
    requires g >= 1
    ensures |r| == if g > n then 0 else n - g + 1
    ensures forall i :: 0 <= i < |r| ==>
      r[i].id == id + i &&
      r[i].groupe == NomGroupe(t.code, g + i, n) &&
      r[i].effectif == CeilDiv(e, n) &&
      r[i].typ == t.typ && r[i].priorite == t.priorite &&
      r[i].moduleNom == t.moduleNom && r[i].enseignant == t.enseignant &&
      r[i].filiere == t.code && r[i].duree == DUREE
    decreases n - g
  {
    if g > n then []
    else
      [Seance(id, t.moduleNom, t.typ, t.enseignant, t.code,
              NomGroupe(t.code, g, n), CeilDiv(e, n), DUREE, t.priorite)]
      + Groupes(t, e, n, g + 1, id + 1)
  }

  /** Group names of one kind within one module are pairwise distinct. */
  lemma GroupNamesDistinct(t: Gabarit, e: int, n: int, id: int, i: int, j: int)
    requires 0 <= i < j < |Groupes(t, e, n, 1, id)|
    ensures Groupes(t, e, n, 1, id)[i].groupe != Groupes(t, e, n, 1, id)[j].groupe
  {
    var r := Groupes(t, e, n, 1, id);
    assert n > 1;
    Text.NatToStringInjective(1 + i, 1 + j);
    var a, b := Text.NatToString(1 + i), Text.NatToString(1 + j);
    assert (t.code + "-G" + a)[|t.code| + 2..] == a;
    assert (t.code + "-G" + b)[|t.code| + 2..] == b;
  }

  function Enseignant(m: ModuleDef): string { m.enseignant.GetOr("Inconnu") }

  /** What one valid module contributes, ids starting at `id`. */
  function SeancesModule(m: ModuleDef, f: Filiere, id: int): seq<Seance> {
    var e := Effectif(f);
    var code := Code(f);
    var (nTd, nTp) := NbGroupes(f);
    var cours := Seance(id, m.nom, Models.Cours, Enseignant(m), code, code, e, DUREE, 1);
    var tds := Groupes(Gabarit(m.nom, Models.TD, Enseignant(m), code, 2), e, nTd, 1, id + 1);
    var tps :=
      if m.nbSeancesTp.GetOr(0) > 0
      then Groupes(Gabarit(m.nom, Models.TP, Enseignant(m), code, 3), e, nTp, 1, id + 1 + |tds|)
      else [];
    [cours] + tds + tps
  }

  function Max0(n: int): nat { if n > 0 then n else 0 }

  /** One lecture for the whole cohort first, then one tutorial per tutorial
      group (even when the module lists no tutorial), then one lab per lab
      group only when the module lists labs; ids are consecutive from `id`.
      For a split cohort no tutorial group exceeds 50 students and no lab
      group 30. */
  lemma {:induction false} SeancesModuleShape(m: ModuleDef, f: Filiere, id: int)
    ensures var r := SeancesModule(m, f, id);
      var nTd := Max0(NbGroupes(f).0);
      var nTp := if m.nbSeancesTp.GetOr(0) > 0 then Max0(NbGroupes(f).1) else 0;
      && |r| == 1 + nTd + nTp
      && r[0].typ == Models.Cours && r[0].groupe == Code(f)
      && r[0].effectif == Effectif(f) && r[0].priorite == 1
      && (forall i :: 0 <= i < |r| ==> r[i].id == id + i && r[i].duree == DUREE)
      && (forall i :: 1 <= i < 1 + nTd ==> r[i].typ == Models.TD && r[i].priorite == 2)
      && (forall i :: 1 + nTd <= i < |r| ==> r[i].typ == Models.TP && r[i].priorite == 3)
      && (EstDecoupee(f) ==> forall i :: 1 <= i < |r| ==>
            r[i].effectif <= (if r[i].typ == Models.TD then TD_MAX else TP_MAX))
      && (!EstDecoupee(f) ==> forall i :: 1 <= i < |r| ==> r[i].effectif == Effectif(f))
  {
    SeancesModuleKinds(m, f, id);
    SeancesModuleEffectifs(m, f, id);
  }

  /** The order, kinds, priorities and ids of one module's sessions. */
  lemma SeancesModuleKinds(m: ModuleDef, f: Filiere, id: int)
    ensures var r := SeancesModule(m, f, id);
      var nTd := Max0(NbGroupes(f).0);
      var nTp := if m.nbSeancesTp.GetOr(0) > 0 then Max0(NbGroupes(f).1) else 0;
      && |r| == 1 + nTd + nTp
      && r[0].typ == Models.Cours && r[0].groupe == Code(f)
      && r[0].effectif == Effectif(f) && r[0].priorite == 1
      && (forall i :: 0 <= i < |r| ==> r[i].id == id + i && r[i].duree == DUREE)
      && (forall i :: 1 <= i < 1 + nTd ==> r[i].typ == Models.TD && r[i].priorite == 2)
      && (forall i :: 1 + nTd <= i < |r| ==> r[i].typ == Models.TP && r[i].priorite == 3)
  {
  }

  /** The head counts of one module's group sessions. */
  lemma SeancesModuleEffectifs(m: ModuleDef, f: Filiere, id: int)
    ensures var r := SeancesModule(m, f, id);
      && (EstDecoupee(f) ==> forall i :: 1 <= i < |r| ==>
            r[i].effectif <= (if r[i].typ == Models.TD then TD_MAX else TP_MAX))
      && (!EstDecoupee(f) ==> forall i :: 1 <= i < |r| ==> r[i].effectif == Effectif(f))
  {
    var e := Effectif(f);
    if EstDecoupee(f) && e >= 1 {
      GroupBound(e, TD_MAX);
      GroupBound(e, TP_MAX);
    }
  }

  // ---------------------------------------------------------------------
  // The whole run
  // ---------------------------------------------------------------------

  /** The generator's state after some modules: the sessions so far and
      `seance_id_counter`. */
  datatype Etat = Etat(seances: seq<Seance>, compteur: int)

  /** `generate_seances` over the given modules, in order. */
  function Generer(mods: seq<ModuleDef>, fs: seq<Filiere>): Etat {
    if |mods| == 0 then Etat([], 1)
    else
      var avant := Generer(mods[..|mods| - 1], fs);
      var m := mods[|mods| - 1];
      var fm := FiliereMap(fs);
      if !FiliereConnue(m.filiereId, fm) then avant
      else
        var nouvelles := SeancesModule(m, fm[m.filiereId.value], avant.compteur);
        Etat(avant.seances + nouvelles, avant.compteur + |nouvelles|)
  }

  /** A module with a missing, zero or unknown cohort id contributes
      nothing; any other module appends exactly its own sessions. */
  lemma GenererStep(mods: seq<ModuleDef>, m: ModuleDef, fs: seq<Filiere>)
    ensures var fm := FiliereMap(fs);
      !FiliereConnue(m.filiereId, fm) ==> Generer(mods + [m], fs) == Generer(mods, fs)
    ensures var fm := FiliereMap(fs);
      FiliereConnue(m.filiereId, fm) ==>
        Generer(mods + [m], fs).seances ==
          Generer(mods, fs).seances + SeancesModule(m, fm[m.filiereId.value], |Generer(mods, fs).seances| + 1)
  {
    assert (mods + [m])[..|mods|] == mods;
    GenererIds(mods, fs);
  }

  /** Session ids are 1, 2, 3, ... in emission order, so they are unique,
      and the counter is always one past the last id. Every session lasts 90
      minutes and its priority is 1, 2 or 3 according to its kind. */
  lemma {:induction false} GenererIds(mods: seq<ModuleDef>, fs: seq<Filiere>)
    ensures Generer(mods, fs).compteur == |Generer(mods, fs).seances| + 1
    ensures forall i :: 0 <= i < |Generer(mods, fs).seances| ==>
      var s := Generer(mods, fs).seances[i];
      && s.id == i + 1 && s.duree == DUREE
      && s.priorite == (match s.typ case Cours => 1 case TD => 2 case TP => 3)
  {
    if |mods| > 0 {
      var prefix := mods[..|mods| - 1];
      GenererIds(prefix, fs);
      var avant := Generer(prefix, fs);
      var m := mods[|mods| - 1];
      var fm := FiliereMap(fs);
      if FiliereConnue(m.filiereId, fm) {
        var f := fm[m.filiereId.value];
        var nouvelles := SeancesModule(m, f, avant.compteur);
        SeancesModuleShape(m, f, avant.compteur);
        var r := Generer(mods, fs).seances;
        assert r == avant.seances + nouvelles;
        forall i | 0 <= i < |r|
          ensures r[i].id == i + 1 && r[i].duree == DUREE
          ensures r[i].priorite == (match r[i].typ case Cours => 1 case TD => 2 case TP => 3)
        {
          if i >= |avant.seances| {
            var k := i - |avant.seances|;
            assert r[i] == nouvelles[k];
          }
        }
      }
    }
  }
}
