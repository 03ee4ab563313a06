/** The older session-demand generator, generate_seances_data.py. It differs
    from logic/seance_generator.py in two ways: every cohort is split
    (`ceil(e / 50)` tutorial groups, `ceil(e / 30)` lab groups), and each
    kind of session is emitted only when the module lists at least one
    session of that kind. Record shapes, group naming and the id counter
    are shared with the newer generator. */
module SeancesData {
  import opened Wrappers
  import Models
  import G = SeanceGenerator

  /** What one valid module contributes, ids starting at `id`. */
  function SeancesModule(m: G.ModuleDef, f: G.Filiere, id: int): seq<G.Seance> {
    var e := G.Effectif(f);
    var code := G.Code(f);
    var nTd := G.CeilDiv(e, G.TD_MAX);
    var nTp := G.CeilDiv(e, G.TP_MAX);
    var cours :=
      if m.nbSeancesCours.GetOr(0) > 0
      then [G.Seance(id, m.nom, Models.Cours, G.Enseignant(m), code, code, e, G.DUREE, 1)]
      else [];
    var tds :=
      if m.nbSeancesTd.GetOr(0) > 0
      then G.Groupes(G.Gabarit(m.nom, Models.TD, G.Enseignant(m), code, 2), e, nTd, 1, id + |cours|)
      else [];
    var tps :=
      if m.nbSeancesTp.GetOr(0) > 0
      then G.Groupes(G.Gabarit(m.nom, Models.TP, G.Enseignant(m), code, 3), e, nTp, 1, id + |cours| + |tds|)
      else [];
    cours + tds + tps
  }

  function Indicator(b: bool): nat { if b then 1 else 0 }

  /** A module yields `[c > 0] + [td > 0]·ceil(e/50) + [tp > 0]·ceil(e/30)`
      sessions with consecutive ids starting at `id`, all of the fixed
      duration. */
  lemma SeancesModuleCount(m: G.ModuleDef, f: G.Filiere, id: int)
    ensures var r := SeancesModule(m, f, id);
      && |r| == Indicator(m.nbSeancesCours.GetOr(0) > 0)
           + Indicator(m.nbSeancesTd.GetOr(0) > 0) * G.Max0(G.CeilDiv(G.Effectif(f), G.TD_MAX))
           + Indicator(m.nbSeancesTp.GetOr(0) > 0) * G.Max0(G.CeilDiv(G.Effectif(f), G.TP_MAX))
      && (forall i :: 0 <= i < |r| ==> r[i].id == id + i && r[i].duree == G.DUREE)
  {
  }

  /** The lecture comes first, and only if the module lists lectures; then
      the tutorials, only if it lists tutorials; then the labs, only if it
      lists labs. No tutorial group exceeds 50 students and no lab group 30. */
  lemma {:induction false} SeancesModuleShape(m: G.ModuleDef, f: G.Filiere, id: int)
    ensures var r := SeancesModule(m, f, id);
      var c := Indicator(m.nbSeancesCours.GetOr(0) > 0);
      var nTd := Indicator(m.nbSeancesTd.GetOr(0) > 0) * G.Max0(G.CeilDiv(G.Effectif(f), G.TD_MAX));
      && (forall i :: 0 <= i < c ==>
            r[i].typ == Models.Cours && r[i].groupe == G.Code(f) && r[i].effectif == G.Effectif(f))
      && (forall i :: c <= i < c + nTd ==> r[i].typ == Models.TD && r[i].effectif <= G.TD_MAX)
      && (forall i :: c + nTd <= i < |r| ==> r[i].typ == Models.TP && r[i].effectif <= G.TP_MAX)
  {
    var e := G.Effectif(f);
    SeancesModuleCount(m, f, id);
    if e >= 1 {
      G.GroupBound(e, G.TD_MAX);
      G.GroupBound(e, G.TP_MAX);
    }
  }

  /** On a split cohort and a module that lists lectures and tutorials, the
      older generator emits exactly what the newer one does. */
  lemma AgreesWithSeanceGenerator(m: G.ModuleDef, f: G.Filiere, id: int)
    requires G.EstDecoupee(f)
    requires m.nbSeancesCours.GetOr(0) > 0 && m.nbSeancesTd.GetOr(0) > 0
    ensures SeancesModule(m, f, id) == G.SeancesModule(m, f, id)
  {
  }

  /** `generate_seances` of generate_seances_data.py over the given modules. */
  function Generer(mods: seq<G.ModuleDef>, fs: seq<G.Filiere>): G.Etat {
    if |mods| == 0 then G.Etat([], 1)
    else
      var avant := Generer(mods[..|mods| - 1], fs);
      var m := mods[|mods| - 1];
      var fm := G.FiliereMap(fs);
      if !G.FiliereConnue(m.filiereId, fm) then avant
      else
        var nouvelles := SeancesModule(m, fm[m.filiereId.value], avant.compteur);
        G.Etat(avant.seances + nouvelles, avant.compteur + |nouvelles|)
  }

  /** Ids run 1, 2, 3, ... over the whole output, a module with a missing,
      zero or unknown cohort id adds nothing, and a known one appends its own
      sessions. */
  lemma {:induction false} GenererIds(mods: seq<G.ModuleDef>, fs: seq<G.Filiere>)
    ensures Generer(mods, fs).compteur == |Generer(mods, fs).seances| + 1
    ensures forall i :: 0 <= i < |Generer(mods, fs).seances| ==>
      Generer(mods, fs).seances[i].id == i + 1
  {
    if |mods| > 0 {
      var prefix := mods[..|mods| - 1];
      GenererIds(prefix, fs);
      var avant := Generer(prefix, fs);
      var m := mods[|mods| - 1];
      var fm := G.FiliereMap(fs);
      if G.FiliereConnue(m.filiereId, fm) {
        var f := fm[m.filiereId.value];
        var nouvelles := SeancesModule(m, f, avant.compteur);
        SeancesModuleCount(m, f, avant.compteur);
        var r := Generer(mods, fs).seances;
        assert r == avant.seances + nouvelles;
        forall i | 0 <= i < |r|
          ensures r[i].id == i + 1
        {
          if i >= |avant.seances| {
            assert r[i] == nouvelles[i - |avant.seances|];
          }
        }
      }
    }
  }

  lemma GenererStep(mods: seq<G.ModuleDef>, m: G.ModuleDef, fs: seq<G.Filiere>)
    ensures var fm := G.FiliereMap(fs);
      !G.FiliereConnue(m.filiereId, fm) ==> Generer(mods + [m], fs) == Generer(mods, fs)
    ensures var fm := G.FiliereMap(fs);
      G.FiliereConnue(m.filiereId, fm) ==>
        Generer(mods + [m], fs).seances ==
          Generer(mods, fs).seances + SeancesModule(m, fm[m.filiereId.value], |Generer(mods, fs).seances| + 1)
  {
    assert (mods + [m])[..|mods|] == mods;
    GenererIds(mods, fs);
  }
}
