/** The best-fit variant of the placer's helpers, logic/optimization.py.
    Its room search scans a copy of the catalog sorted by capacity
    (Python's `sorted` is stable), so it returns the smallest free room
    that seats the demand, ties going to the room listed first. Its window
    search is the placer's without the early `break`. */
module Optimization {
  import opened Wrappers
  import Models
  import E = EdtGenerator

  // ---------------------------------------------------------------------
  // Windows
  // ---------------------------------------------------------------------

  const CRENEAUX_LUN_JEU: seq<E.Creneau> := [
    E.Creneau(Models.Heure(9, 0), Models.Heure(10, 30)),
    E.Creneau(Models.Heure(10, 45), Models.Heure(12, 15)),
    E.Creneau(Models.Heure(12, 30), Models.Heure(14, 0)),
    E.Creneau(Models.Heure(14, 15), Models.Heure(15, 45)),
    E.Creneau(Models.Heure(16, 0), Models.Heure(17, 30))
  ]

  const CRENEAUX_VENDREDI: seq<E.Creneau> := [
    E.Creneau(Models.Heure(9, 0), Models.Heure(10, 30)),
    E.Creneau(Models.Heure(10, 45), Models.Heure(12, 15)),
    E.Creneau(Models.Heure(14, 15), Models.Heure(15, 45)),
    E.Creneau(Models.Heure(16, 0), Models.Heure(17, 30))
  ]

  const CRENEAUX_SAMEDI: seq<E.Creneau> := [
    E.Creneau(Models.Heure(9, 0), Models.Heure(10, 30)),
    E.Creneau(Models.Heure(10, 45), Models.Heure(12, 15))
  ]

  const JOURS: seq<string> := ["Lundi", "Mardi", "Mercredi", "Jeudi", "Vendredi", "Samedi"]

  function GetCreneaux(jour: string): seq<E.Creneau> {
    if jour in ["Lundi", "Mardi", "Mercredi", "Jeudi"] then CRENEAUX_LUN_JEU
    else if jour == "Vendredi" then CRENEAUX_VENDREDI
    else CRENEAUX_SAMEDI
  }

  /** The tables, the day list and `get_creneaux` are the placer's. */
  lemma SameTables(jour: string)
    ensures CRENEAUX_LUN_JEU == E.CRENEAUX_LUN_JEU
    ensures CRENEAUX_VENDREDI == E.CRENEAUX_VENDREDI
    ensures CRENEAUX_SAMEDI == E.CRENEAUX_SAMEDI
    ensures JOURS == E.JOURS
    ensures GetCreneaux(jour) == E.GetCreneaux(jour)
  {
  }

  // ---------------------------------------------------------------------
  // Stable sort by capacity
  // ---------------------------------------------------------------------

  predicate Trie(s: seq<Models.Salle>) {
    forall i, j :: 0 <= i < j < |s| ==> s[i].capacite <= s[j].capacite
  }

  /** Insert `x` before the first room whose capacity is at least its own;
      `x` comes from earlier in the input than every room of `t`, so it goes
      before the rooms of equal capacity, as a stable sort requires. */
  function Inserer(x: Models.Salle, t: seq<Models.Salle>): seq<Models.Salle> {
    if |t| == 0 || x.capacite <= t[0].capacite then [x] + t
    else [t[0]] + Inserer(x, t[1..])
  }

  /** `sorted(salles, key=lambda s: s["capacite"])`. */
  function Trier(s: seq<Models.Salle>): seq<Models.Salle> {
    if |s| == 0 then [] else Inserer(s[0], Trier(s[1..]))
  }

  lemma {:induction false} InsererPermutation(x: Models.Salle, t: seq<Models.Salle>)
    ensures multiset(Inserer(x, t)) == multiset([x] + t)
    ensures |Inserer(x, t)| == |t| + 1
  {
    if |t| > 0 && x.capacite > t[0].capacite {
      InsererPermutation(x, t[1..]);
      assert t == [t[0]] + t[1..];
    }
  }

  lemma {:induction false} InsererTrie(x: Models.Salle, t: seq<Models.Salle>)
    requires Trie(t)
    ensures Trie(Inserer(x, t))
    ensures forall i :: 0 <= i < |Inserer(x, t)| ==>
      Inserer(x, t)[i] == x || Inserer(x, t)[i] in t
  {
    InsererPermutation(x, t);
    if |t| > 0 && x.capacite > t[0].capacite {
      InsererTrie(x, t[1..]);
      var r := Inserer(x, t);
      assert r == [t[0]] + Inserer(x, t[1..]);
      forall i, j | 0 <= i < j < |r|
        ensures r[i].capacite <= r[j].capacite
      {
        if i == 0 {
          assert r[j] == x || r[j] in t[1..];
        }
      }
    }
  }

  /** The sorted copy is ordered by capacity and holds the same rooms, each
      as often as in the catalog. */
  lemma {:induction false} TrierCorrect(s: seq<Models.Salle>)
    ensures Trie(Trier(s))
    ensures multiset(Trier(s)) == multiset(s)
  {
    if |s| > 0 {
      TrierCorrect(s[1..]);
      InsererTrie(s[0], Trier(s[1..]));
      InsererPermutation(s[0], Trier(s[1..]));
      assert s == [s[0]] + s[1..];
    }
  }

  // ---------------------------------------------------------------------
  // Best-fit room search
  // ---------------------------------------------------------------------

  /** First suitable room of a sequence: the placer's first-fit scan. */
  function PremiereConvenable(t: seq<Models.Salle>, edt: seq<E.Entree>, jour: string, debut: string, capacite: int): Option<Models.Salle> {
    if |t| == 0 then None
    else if E.Convient(edt, jour, debut, capacite, t[0]) then Some(t[0])
    else PremiereConvenable(t[1..], edt, jour, debut, capacite)
  }

  /** Reference definition of best fit, independent of sorting: among the
      suitable rooms, one of least capacity, the earliest in the catalog on
      a tie. */
  function Meilleure(s: seq<Models.Salle>, edt: seq<E.Entree>, jour: string, debut: string, capacite: int): Option<Models.Salle> {
    if |s| == 0 then None
    else
      var reste := Meilleure(s[1..], edt, jour, debut, capacite);
      if E.Convient(edt, jour, debut, capacite, s[0]) && (reste.None? || s[0].capacite <= reste.value.capacite)
      then Some(s[0])
      else reste
  }

  /** On a sorted sequence, inserting `x` changes the first suitable room
      exactly as best fit says it should. */
  lemma {:induction false} PremiereApresInsertion(x: Models.Salle, t: seq<Models.Salle>, edt: seq<E.Entree>, jour: string, debut: string, capacite: int)
    requires Trie(t)
    ensures var f := PremiereConvenable(t, edt, jour, debut, capacite);
      PremiereConvenable(Inserer(x, t), edt, jour, debut, capacite) ==
        if E.Convient(edt, jour, debut, capacite, x) && (f.None? || x.capacite <= f.value.capacite)
        then Some(x) else f
  {
    if |t| > 0 {
      PremiereMembre(t, edt, jour, debut, capacite);
      if x.capacite > t[0].capacite {
        PremiereApresInsertion(x, t[1..], edt, jour, debut, capacite);
      }
    }
  }

  /** The first suitable room is one of the sequence's rooms. */
  lemma {:induction false} PremiereMembre(t: seq<Models.Salle>, edt: seq<E.Entree>, jour: string, debut: string, capacite: int)
    ensures PremiereConvenable(t, edt, jour, debut, capacite).Some? ==>
      PremiereConvenable(t, edt, jour, debut, capacite).value in t
  {
    if |t| > 0 && !E.Convient(edt, jour, debut, capacite, t[0]) {
      PremiereMembre(t[1..], edt, jour, debut, capacite);
    }
  }

  /** Scanning the sorted copy first-fit yields the best-fit room. */
  lemma {:induction false} PremiereDuTriEstMeilleure(s: seq<Models.Salle>, edt: seq<E.Entree>, jour: string, debut: string, capacite: int)
    ensures PremiereConvenable(Trier(s), edt, jour, debut, capacite) == Meilleure(s, edt, jour, debut, capacite)
  {
    if |s| > 0 {
      PremiereDuTriEstMeilleure(s[1..], edt, jour, debut, capacite);
      TrierCorrect(s[1..]);
      PremiereApresInsertion(s[0], Trier(s[1..]), edt, jour, debut, capacite);
    }
  }

  /** Best fit: `None` exactly when no room of the catalog is suitable;
      otherwise a suitable room `s[k]` such that no suitable room has
      smaller capacity and no suitable room listed before it has the same
      capacity. */
  lemma {:induction false} MeilleureMeaning(s: seq<Models.Salle>, edt: seq<E.Entree>, jour: string, debut: string, capacite: int)
    ensures var r := Meilleure(s, edt, jour, debut, capacite);
      && (r.None? <==> forall j :: 0 <= j < |s| ==> !E.Convient(edt, jour, debut, capacite, s[j]))
      && (r.Some? ==> exists k :: (0 <= k < |s| && s[k] == r.value &&
            E.Convient(edt, jour, debut, capacite, s[k]) &&
            (forall j :: 0 <= j < |s| && E.Convient(edt, jour, debut, capacite, s[j]) ==> s[k].capacite <= s[j].capacite) &&
            (forall j :: 0 <= j < k && E.Convient(edt, jour, debut, capacite, s[j]) ==> s[j].capacite > s[k].capacite)))
  {
    if |s| > 0 {
      var reste := s[1..];
      MeilleureMeaning(reste, edt, jour, debut, capacite);
      var r := Meilleure(s, edt, jour, debut, capacite);
      var rr := Meilleure(reste, edt, jour, debut, capacite);
      if rr.Some? {
        var k :| 0 <= k < |reste| && reste[k] == rr.value &&
          E.Convient(edt, jour, debut, capacite, reste[k]) &&
          (forall j :: 0 <= j < |reste| && E.Convient(edt, jour, debut, capacite, reste[j]) ==> reste[k].capacite <= reste[j].capacite) &&
          (forall j :: 0 <= j < k && E.Convient(edt, jour, debut, capacite, reste[j]) ==> reste[j].capacite > reste[k].capacite);
        if r == Some(s[0]) {
          forall j | 0 <= j < |s| && E.Convient(edt, jour, debut, capacite, s[j])
            ensures s[0].capacite <= s[j].capacite
          {
            if j > 0 { assert s[j] == reste[j - 1]; }
          }
        } else {
          assert s[k + 1] == reste[k];
          forall j | 0 <= j < |s| && E.Convient(edt, jour, debut, capacite, s[j])
            ensures s[k + 1].capacite <= s[j].capacite
          {
            if j > 0 { assert s[j] == reste[j - 1]; }
          }
          forall j | 0 <= j < k + 1 && E.Convient(edt, jour, debut, capacite, s[j])
            ensures s[j].capacite > s[k + 1].capacite
          {
            if j > 0 { assert s[j] == reste[j - 1]; }
          }
        }
      } else {
        forall j | 0 <= j < |s| && j > 0
          ensures !E.Convient(edt, jour, debut, capacite, s[j])
        {
          assert s[j] == reste[j - 1];
        }
      }
    }
  }

  /** `trouver_salle_libre` of the best-fit module. */
  function SalleLibre(salles: seq<Models.Salle>, edt: seq<E.Entree>, jour: string, debut: string, capacite: int): Option<string> {
    match PremiereConvenable(Trier(salles), edt, jour, debut, capacite)
    case None => None
    case Some(salle) => Some(salle.nom)
  }

  /** The placer's first-fit scan applied to any sequence picks the same
      room as `PremiereConvenable`. */
  lemma {:induction false} FirstFitIsPremiere(t: seq<Models.Salle>, edt: seq<E.Entree>, jour: string, debut: string, capacite: int)
    ensures E.SalleLibre(t, edt, jour, debut, capacite) ==
      match PremiereConvenable(t, edt, jour, debut, capacite)
      case None => None
      case Some(salle) => Some(salle.nom)
  {
    if |t| > 0 && !E.Convient(edt, jour, debut, capacite, t[0]) {
      FirstFitIsPremiere(t[1..], edt, jour, debut, capacite);
    }
  }

  /** The search as written: the placer's scan run over a sorted copy; the
      caller's catalog is a value and is left as it was. */
  method TrouverSalleLibre(salles: seq<Models.Salle>, edt: seq<E.Entree>, jour: string, debut: string, capacite: int)
    returns (r: Option<string>)
    ensures r == SalleLibre(salles, edt, jour, debut, capacite)
    ensures r.None? <==> forall j :: 0 <= j < |salles| ==> !E.Convient(edt, jour, debut, capacite, salles[j])
    ensures r.Some? ==> exists k :: (0 <= k < |salles| && salles[k].nom == r.value &&
      E.Convient(edt, jour, debut, capacite, salles[k]) &&
      (forall j :: 0 <= j < |salles| && E.Convient(edt, jour, debut, capacite, salles[j]) ==>
        salles[k].capacite <= salles[j].capacite) &&
      (forall j :: 0 <= j < k && E.Convient(edt, jour, debut, capacite, salles[j]) ==>
        salles[j].capacite > salles[k].capacite))
  {
    var triees := Trier(salles);
    r := E.TrouverSalleLibre(triees, edt, jour, debut, capacite);
    FirstFitIsPremiere(triees, edt, jour, debut, capacite);
    PremiereDuTriEstMeilleure(salles, edt, jour, debut, capacite);
    MeilleureMeaning(salles, edt, jour, debut, capacite);
  }

  /** Compared with the placer's first fit, best fit finds a room exactly
      when first fit does, and never a larger one. */
  lemma RefinesFirstFit(salles: seq<Models.Salle>, edt: seq<E.Entree>, jour: string, debut: string, capacite: int)
    ensures var b := Meilleure(salles, edt, jour, debut, capacite);
      var f := E.PremiereSalle(salles, edt, jour, debut, capacite);
      && (b.None? <==> f.None?)
      && (b.Some? && f.Some? ==> b.value.capacite <= salles[f.value].capacite)
  {
    MeilleureMeaning(salles, edt, jour, debut, capacite);
  }

  // ---------------------------------------------------------------------
  // Window search without `break`
  // ---------------------------------------------------------------------

  /** `trouver_creneau_libre` as written here: the inner scan always runs
      to the end of the timetable. It returns what the placer's search
      returns. */
  method TrouverCreneauLibre(edt: seq<E.Entree>, jour: string, enseignant: string, groupe: string)
    returns (r: Option<E.Creneau>)
    ensures r == E.CreneauLibre(edt, jour, enseignant, groupe)
  {
    SameTables(jour);
    var ws := GetCreneaux(jour);
    var k := 0;
    while k < |ws|
      invariant 0 <= k <= |ws|
      invariant forall j :: 0 <= j < k ==> !E.Libre(edt, jour, ws[j].Debut(), enseignant, groupe)
    {
      var libre := true;
      var i := 0;
      while i < |edt|
        invariant 0 <= i <= |edt|
        invariant libre <==> forall j :: 0 <= j < i && edt[j].jour == jour && edt[j].debut == ws[k].Debut() ==>
          edt[j].enseignant != enseignant && edt[j].groupe != groupe
      {
        if edt[i].jour == jour && edt[i].debut == ws[k].Debut() {
          if edt[i].enseignant == enseignant || edt[i].groupe == groupe {
            libre := false;
          }
        }
        i := i + 1;
      }
      if libre {
        E.PremierCreneauAt(ws, edt, jour, enseignant, groupe, k);
        return Some(ws[k]);
      }
      k := k + 1;
    }
    return None;
  }
}
