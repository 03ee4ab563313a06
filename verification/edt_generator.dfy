/** The greedy timetable placer of logic/edt_generator.py.

    Sessions are taken in input order. For each one the days are tried in
    the fixed order Lundi..Samedi; on a day, the earliest window where
    neither the teacher nor the group is already busy is taken, then the
    first room of the catalog that seats the session and is free at that
    window. The candidate entry is checked for conflicts and appended. If no
    day works, `proposer_solution` repeats the same search; a session that
    still finds nothing is dropped. The timetable only ever grows.

    The JSON loads and the final save are left out: the room catalog and the
    sessions are parameters and the timetable is the result. */
module EdtGenerator {
  import opened Wrappers
  import Models
  import S = SeanceGenerator

  // ---------------------------------------------------------------------
  // Windows and days
  // ---------------------------------------------------------------------

  /** A window of the day. The source keeps its ends as "HH:MM" texts;
      here they are kept as times and `Debut()`/`Fin()` give the texts. */
  datatype Creneau = Creneau(de: Models.HeureValide, a: Models.HeureValide) {
    function Debut(): string { Models.FormatHeure(de) }
    function Fin(): string { Models.FormatHeure(a) }
  }

  const CRENEAUX_LUN_JEU: seq<Creneau> := [
    Creneau(Models.Heure(9, 0), Models.Heure(10, 30)),
    Creneau(Models.Heure(10, 45), Models.Heure(12, 15)),
    Creneau(Models.Heure(12, 30), Models.Heure(14, 0)),
    Creneau(Models.Heure(14, 15), Models.Heure(15, 45)),
    Creneau(Models.Heure(16, 0), Models.Heure(17, 30))
  ]

  const CRENEAUX_VENDREDI: seq<Creneau> := [
    Creneau(Models.Heure(9, 0), Models.Heure(10, 30)),
    Creneau(Models.Heure(10, 45), Models.Heure(12, 15)),
    Creneau(Models.Heure(14, 15), Models.Heure(15, 45)),
    Creneau(Models.Heure(16, 0), Models.Heure(17, 30))
  ]

  const CRENEAUX_SAMEDI: seq<Creneau> := [
    Creneau(Models.Heure(9, 0), Models.Heure(10, 30)),
    Creneau(Models.Heure(10, 45), Models.Heure(12, 15))
  ]

  const JOURS: seq<string> := ["Lundi", "Mardi", "Mercredi", "Jeudi", "Vendredi", "Samedi"]

  /** `get_creneaux`: any name other than Lundi..Vendredi, Samedi and
      unknown names alike, gets the Saturday table. */
  function GetCreneaux(jour: string): seq<Creneau> {
    if jour in ["Lundi", "Mardi", "Mercredi", "Jeudi"] then CRENEAUX_LUN_JEU
    else if jour == "Vendredi" then CRENEAUX_VENDREDI
    else CRENEAUX_SAMEDI
  }

  /** Monday to Thursday have the five windows, Friday the same five minus
      12:30-14:00, and every other day name the first two. */
  lemma GetCreneauxShape(jour: string)
    ensures jour in JOURS[..4] ==> GetCreneaux(jour) == CRENEAUX_LUN_JEU
    ensures jour == "Vendredi" ==>
      GetCreneaux(jour) == CRENEAUX_LUN_JEU[..2] + CRENEAUX_LUN_JEU[3..]
    ensures jour !in JOURS[..5] ==> GetCreneaux(jour) == CRENEAUX_LUN_JEU[..2]
    ensures forall c :: c in GetCreneaux(jour) ==> c in CRENEAUX_LUN_JEU
  {
    assert JOURS[..4] == ["Lundi", "Mardi", "Mercredi", "Jeudi"];
    assert JOURS[..5] == ["Lundi", "Mardi", "Mercredi", "Jeudi", "Vendredi"];
  }

  /** The window texts as the tables spell them. */
  lemma TablesTexte()
    ensures CRENEAUX_LUN_JEU[0].Debut() == "09:00" && CRENEAUX_LUN_JEU[0].Fin() == "10:30"
    ensures CRENEAUX_LUN_JEU[1].Debut() == "10:45" && CRENEAUX_LUN_JEU[1].Fin() == "12:15"
    ensures CRENEAUX_LUN_JEU[2].Debut() == "12:30" && CRENEAUX_LUN_JEU[2].Fin() == "14:00"
    ensures CRENEAUX_LUN_JEU[3].Debut() == "14:15" && CRENEAUX_LUN_JEU[3].Fin() == "15:45"
    ensures CRENEAUX_LUN_JEU[4].Debut() == "16:00" && CRENEAUX_LUN_JEU[4].Fin() == "17:30"
  {
    assert Models.FormatHeure(Models.Heure(9, 0)) == "09:00";
    assert Models.FormatHeure(Models.Heure(10, 30)) == "10:30";
    assert Models.FormatHeure(Models.Heure(10, 45)) == "10:45";
    assert Models.FormatHeure(Models.Heure(12, 15)) == "12:15";
    assert Models.FormatHeure(Models.Heure(12, 30)) == "12:30";
    assert Models.FormatHeure(Models.Heure(14, 0)) == "14:00";
    assert Models.FormatHeure(Models.Heure(14, 15)) == "14:15";
    assert Models.FormatHeure(Models.Heure(15, 45)) == "15:45";
    assert Models.FormatHeure(Models.Heure(16, 0)) == "16:00";
    assert Models.FormatHeure(Models.Heure(17, 30)) == "17:30";
  }

  /** Every window lasts 90 minutes and ends before the next one starts. */
  predicate TableBienFormee(ws: seq<Creneau>) {
    && (forall i :: 0 <= i < |ws| ==> ws[i].a.Minutes() - ws[i].de.Minutes() == 90)
    && (forall i :: 0 <= i < |ws| - 1 ==> ws[i].a.Minutes() < ws[i + 1].de.Minutes())
  }

  /** In a well-formed table the windows are in strictly increasing order. */
  lemma {:induction false} Ordonnee(ws: seq<Creneau>, i: nat, j: nat)
    requires TableBienFormee(ws)
    requires i < j < |ws|
    ensures ws[i].a.Minutes() < ws[j].de.Minutes()
    decreases j - i
  {
    if j > i + 1 {
      Ordonnee(ws, i, j - 1);
    }
  }

  /** Within a day every window's texts parse back to its ends, every
      window lasts 90 minutes, the windows are disjoint and in increasing
      order, and the start text alone identifies the window. */
  lemma WindowsWellFormed(jour: string)
    ensures forall c :: c in GetCreneaux(jour) ==>
      Models.ParseHeure(c.Debut()) == Ok(c.de) && Models.ParseHeure(c.Fin()) == Ok(c.a) &&
      Models.DureeMinutes(c.de, c.a) == 90
    ensures forall i, j :: 0 <= i < j < |GetCreneaux(jour)| ==>
      GetCreneaux(jour)[i].a.Minutes() < GetCreneaux(jour)[j].de.Minutes()
    ensures forall i, j | 0 <= i < |GetCreneaux(jour)| && 0 <= j < |GetCreneaux(jour)| ::
      GetCreneaux(jour)[i].Debut() == GetCreneaux(jour)[j].Debut() ==> i == j
  {
    var ws := GetCreneaux(jour);
    assert TableBienFormee(ws);
    forall c | c in ws
      ensures Models.ParseHeure(c.Debut()) == Ok(c.de) && Models.ParseHeure(c.Fin()) == Ok(c.a)
    {
      Models.ParseFormatRoundTrip(c.de);
      Models.ParseFormatRoundTrip(c.a);
    }
    forall i, j | 0 <= i < j < |ws|
      ensures ws[i].a.Minutes() < ws[j].de.Minutes()
    {
      Ordonnee(ws, i, j);
    }
    forall i, j | 0 <= i < j < |ws|
      ensures ws[i].Debut() != ws[j].Debut() && ws[j].Debut() != ws[i].Debut()
    {
      Models.ParseFormatRoundTrip(ws[i].de);
      Models.ParseFormatRoundTrip(ws[j].de);
      Ordonnee(ws, i, j);
    }
  }

  // ---------------------------------------------------------------------
  // Timetable entries and conflicts
  // ---------------------------------------------------------------------

  /** One placed session, `nouvelle_seance` of the source. */
  datatype Entree = Entree(
    moduleNom: string, enseignant: string, groupe: string,
    jour: string, debut: string, fin: string, salle: string)

  datatype Conflit = SalleOccupee | EnseignantIndisponible | GroupeEnDouble

  function Message(c: Conflit): string {
    match c
    case SalleOccupee => "Salle occupée"
    case EnseignantIndisponible => "Enseignant indisponible"
    case GroupeEnDouble => "Groupe en double"
  }

  predicate MemeCreneau(s: Entree, x: Entree) {
    s.jour == x.jour && s.debut == x.debut
  }

  /** `s` clashes with `x`: same day and start, and the same room, teacher
      or group. */
  predicate EnConflit(s: Entree, x: Entree) {
    MemeCreneau(s, x) && (s.salle == x.salle || s.enseignant == x.enseignant || s.groupe == x.groupe)
  }

  /** The messages one existing entry contributes, in the fixed order room,
      teacher, group. */
  function ConflitsAvec(s: Entree, x: Entree): seq<Conflit> {
    if MemeCreneau(s, x) then
      (if s.salle == x.salle then [SalleOccupee] else [])
      + (if s.enseignant == x.enseignant then [EnseignantIndisponible] else [])
      + (if s.groupe == x.groupe then [GroupeEnDouble] else [])
    else []
  }

  /** `detecter_conflits(edt, seance)`: one message per clashing field of
      each entry at the same day and start, in timetable order. */
  function DetecterConflits(edt: seq<Entree>, x: Entree): seq<Conflit> {
    if |edt| == 0 then []
    else DetecterConflits(edt[..|edt| - 1], x) + ConflitsAvec(edt[|edt| - 1], x)
  }

  /** At most three messages per entry. */
  lemma {:induction false} DetecterConflitsBorne(edt: seq<Entree>, x: Entree)
    ensures |DetecterConflits(edt, x)| <= 3 * |edt|
  {
    if |edt| > 0 {
      DetecterConflitsBorne(edt[..|edt| - 1], x);
    }
  }

  /** `s` and `x` are at the same day and start and share the field that
      message `k` is about. */
  predicate Partage(s: Entree, x: Entree, k: Conflit) {
    MemeCreneau(s, x) &&
    match k
    case SalleOccupee => s.salle == x.salle
    case EnseignantIndisponible => s.enseignant == x.enseignant
    case GroupeEnDouble => s.groupe == x.groupe
  }

  /** One step of `DetecterConflits`: the messages of the first `n`
      entries followed by those of entry `n`. */
  lemma DetecterConflitsPas(edt: seq<Entree>, x: Entree, k: Conflit)
    requires |edt| > 0
    ensures k in DetecterConflits(edt, x) <==>
      k in DetecterConflits(edt[..|edt| - 1], x) || Partage(edt[|edt| - 1], x, k)
  {
    var n := |edt| - 1;
    assert DetecterConflits(edt, x) == DetecterConflits(edt[..n], x) + ConflitsAvec(edt[n], x);
  }

  /** Every reported message comes from an entry that shares its field. */
  lemma {:induction false} DetecterConflitsSound(edt: seq<Entree>, x: Entree, k: Conflit) returns (i: nat)
    requires k in DetecterConflits(edt, x)
    ensures i < |edt| && Partage(edt[i], x, k)
  {
    var n := |edt| - 1;
    DetecterConflitsPas(edt, x, k);
    if Partage(edt[n], x, k) {
      i := n;
    } else {
      i := DetecterConflitsSound(edt[..n], x, k);
    }
  }

  /** Every entry that shares a field yields that message. */
  lemma {:induction false} DetecterConflitsComplete(edt: seq<Entree>, x: Entree, k: Conflit, i: nat)
    requires i < |edt| && Partage(edt[i], x, k)
    ensures k in DetecterConflits(edt, x)
  {
    var n := |edt| - 1;
    DetecterConflitsPas(edt, x, k);
    if i < n {
      assert edt[..n][i] == edt[i];
      DetecterConflitsComplete(edt[..n], x, k, i);
    }
  }

  /** Each kind of message is reported exactly when some entry at the same
      day and start shares that field. */
  lemma DetecterConflitsKinds(edt: seq<Entree>, x: Entree, k: Conflit)
    ensures k in DetecterConflits(edt, x) <==> exists i :: 0 <= i < |edt| && Partage(edt[i], x, k)
  {
    if k in DetecterConflits(edt, x) {
      var i := DetecterConflitsSound(edt, x, k);
    }
    if exists i :: 0 <= i < |edt| && Partage(edt[i], x, k) {
      var i :| 0 <= i < |edt| && Partage(edt[i], x, k);
      DetecterConflitsComplete(edt, x, k, i);
    }
  }

  /** No message at all exactly when no entry clashes with `x`. */
  lemma DetecterConflitsVide(edt: seq<Entree>, x: Entree)
    ensures DetecterConflits(edt, x) == [] <==> forall i :: 0 <= i < |edt| ==> !EnConflit(edt[i], x)
  {
    var r := DetecterConflits(edt, x);
    if r != [] {
      var i := DetecterConflitsSound(edt, x, r[0]);
      assert EnConflit(edt[i], x);
    } else {
      forall i | 0 <= i < |edt|
        ensures !EnConflit(edt[i], x)
      {
        if EnConflit(edt[i], x) {
          var k := if edt[i].salle == x.salle then SalleOccupee
            else if edt[i].enseignant == x.enseignant then EnseignantIndisponible
            else GroupeEnDouble;
          DetecterConflitsComplete(edt, x, k, i);
        }
      }
    }
  }

  // ---------------------------------------------------------------------
  // Room search (first fit)
  // ---------------------------------------------------------------------

  /** Some entry uses room `nom` at `(jour, debut)`. */
  predicate Occupee(edt: seq<Entree>, jour: string, debut: string, nom: string) {
    exists i :: 0 <= i < |edt| && edt[i].jour == jour && edt[i].debut == debut && edt[i].salle == nom
  }

  /** The room seats `capacite` and is free at `(jour, debut)`. */
  predicate Convient(edt: seq<Entree>, jour: string, debut: string, capacite: int, salle: Models.Salle) {
    salle.capacite >= capacite && !Occupee(edt, jour, debut, salle.nom)
  }

  /** Index of the first suitable room of the catalog, if any. */
  function PremiereSalle(salles: seq<Models.Salle>, edt: seq<Entree>, jour: string, debut: string, capacite: int): (r: Option<nat>)
    ensures r.None? <==> forall k :: 0 <= k < |salles| ==> !Convient(edt, jour, debut, capacite, salles[k])
    ensures r.Some? ==>
      r.value < |salles| && Convient(edt, jour, debut, capacite, salles[r.value]) &&
      forall k :: 0 <= k < r.value ==> !Convient(edt, jour, debut, capacite, salles[k])
  {
    if |salles| == 0 then None
    else if Convient(edt, jour, debut, capacite, salles[0]) then Some(0)
    else
      match PremiereSalle(salles[1..], edt, jour, debut, capacite)
      case None => None
      case Some(k) => Some(k + 1)
  }

  /** `trouver_salle_libre`: the name of the first room in catalog order
      that seats `capacite` and is unused at `(jour, debut)`. */
  function SalleLibre(salles: seq<Models.Salle>, edt: seq<Entree>, jour: string, debut: string, capacite: int): Option<string> {
    match PremiereSalle(salles, edt, jour, debut, capacite)
    case None => None
    case Some(k) => Some(salles[k].nom)
  }

  /** No room is returned exactly when none is suitable; a returned room
      is in the catalog, seats `capacite`, is unused at that time, and every
      room listed before it is unsuitable. */
  lemma SalleLibreMeaning(salles: seq<Models.Salle>, edt: seq<Entree>, jour: string, debut: string, capacite: int)
    ensures var r := SalleLibre(salles, edt, jour, debut, capacite);
      && (r.None? <==> forall k :: 0 <= k < |salles| ==> !Convient(edt, jour, debut, capacite, salles[k]))
      && (r.Some? ==> exists k :: (0 <= k < |salles| && salles[k].nom == r.value &&
            salles[k].EstDisponiblePour(capacite) && !Occupee(edt, jour, debut, r.value) &&
            forall j :: 0 <= j < k ==> !Convient(edt, jour, debut, capacite, salles[j])))
  {
    var p := PremiereSalle(salles, edt, jour, debut, capacite);
    if p.Some? {
      assert Convient(edt, jour, debut, capacite, salles[p.value]);
    }
  }

  /** The search as written: a scan of the catalog skipping rooms that are
      too small, with an inner scan of the timetable that stops at the first
      entry using the room at that time. */
  method TrouverSalleLibre(salles: seq<Models.Salle>, edt: seq<Entree>, jour: string, debut: string, capacite: int)
    returns (r: Option<string>)
    ensures r == SalleLibre(salles, edt, jour, debut, capacite)
  {
    var k := 0;
    while k < |salles|
      invariant 0 <= k <= |salles|
      invariant forall j :: 0 <= j < k ==> !Convient(edt, jour, debut, capacite, salles[j])
    {
      var salle := salles[k];
      if salle.capacite < capacite {
        k := k + 1;
        continue;
      }
      var occupee := false;
      var i := 0;
      while i < |edt|
        invariant 0 <= i <= |edt|
        invariant !occupee ==> forall j :: 0 <= j < i ==>
          !(edt[j].jour == jour && edt[j].debut == debut && edt[j].salle == salle.nom)
        invariant occupee ==> Occupee(edt, jour, debut, salle.nom)
      {
        if edt[i].jour == jour && edt[i].debut == debut && edt[i].salle == salle.nom {
          occupee := true;
          break;
        }
        i := i + 1;
      }
      if !occupee {
        PremiereSalleAt(salles, edt, jour, debut, capacite, k);
        return Some(salle.nom);
      }
      k := k + 1;
    }
    return None;
  }

  /** When room `k` is the first suitable one, `PremiereSalle` finds it. */
  lemma {:induction false} PremiereSalleAt(salles: seq<Models.Salle>, edt: seq<Entree>, jour: string, debut: string, capacite: int, k: nat)
    requires k < |salles| && Convient(edt, jour, debut, capacite, salles[k])
    requires forall j :: 0 <= j < k ==> !Convient(edt, jour, debut, capacite, salles[j])
    ensures PremiereSalle(salles, edt, jour, debut, capacite) == Some(k)
  {
    if k > 0 {
      PremiereSalleAt(salles[1..], edt, jour, debut, capacite, k - 1);
    }
  }

  // ---------------------------------------------------------------------
  // Window search
  // ---------------------------------------------------------------------

  /** Neither the teacher nor the group has an entry at `(jour, debut)`. */
  predicate Libre(edt: seq<Entree>, jour: string, debut: string, enseignant: string, groupe: string) {
    forall i :: 0 <= i < |edt| && edt[i].jour == jour && edt[i].debut == debut ==>
      edt[i].enseignant != enseignant && edt[i].groupe != groupe
  }

  /** Index of the first free window among `ws`, if any. */
  function PremierCreneau(ws: seq<Creneau>, edt: seq<Entree>, jour: string, enseignant: string, groupe: string): (r: Option<nat>)
    ensures r.None? <==> forall k :: 0 <= k < |ws| ==> !Libre(edt, jour, ws[k].Debut(), enseignant, groupe)
    ensures r.Some? ==>
      r.value < |ws| && Libre(edt, jour, ws[r.value].Debut(), enseignant, groupe) &&
      forall k :: 0 <= k < r.value ==> !Libre(edt, jour, ws[k].Debut(), enseignant, groupe)
  {
    if |ws| == 0 then None
    else if Libre(edt, jour, ws[0].Debut(), enseignant, groupe) then Some(0)
    else
      match PremierCreneau(ws[1..], edt, jour, enseignant, groupe)
      case None => None
      case Some(k) => Some(k + 1)
  }

  /** `trouver_creneau_libre`: the earliest window of the day at which
      neither the teacher nor the group is busy; `None` stands for the
      source's `(None, None)`. */
  function CreneauLibre(edt: seq<Entree>, jour: string, enseignant: string, groupe: string): Option<Creneau> {
    var ws := GetCreneaux(jour);
    match PremierCreneau(ws, edt, jour, enseignant, groupe)
    case None => None
    case Some(k) => Some(ws[k])
  }

  /** No window is returned exactly when every window of the day is busy;
      a returned window is one of the day's, is free, and every earlier
      window of the day is busy. */
  lemma CreneauLibreMeaning(edt: seq<Entree>, jour: string, enseignant: string, groupe: string)
    ensures var r := CreneauLibre(edt, jour, enseignant, groupe);
      && (r.None? <==> forall c :: c in GetCreneaux(jour) ==> !Libre(edt, jour, c.Debut(), enseignant, groupe))
      && (r.Some? ==> r.value in GetCreneaux(jour) && Libre(edt, jour, r.value.Debut(), enseignant, groupe))
      && (r.Some? ==> exists k :: (0 <= k < |GetCreneaux(jour)| && GetCreneaux(jour)[k] == r.value &&
            forall j :: 0 <= j < k ==> !Libre(edt, jour, GetCreneaux(jour)[j].Debut(), enseignant, groupe)))
  {
  }

  lemma {:induction false} PremierCreneauAt(ws: seq<Creneau>, edt: seq<Entree>, jour: string, enseignant: string, groupe: string, k: nat)
    requires k < |ws| && Libre(edt, jour, ws[k].Debut(), enseignant, groupe)
    requires forall j :: 0 <= j < k ==> !Libre(edt, jour, ws[j].Debut(), enseignant, groupe)
    ensures PremierCreneau(ws, edt, jour, enseignant, groupe) == Some(k)
  {
    if k > 0 {
      PremierCreneauAt(ws[1..], edt, jour, enseignant, groupe, k - 1);
    }
  }

  /** The search as written: for each window, scan the timetable and stop
      at the first entry of the teacher or the group at that time. */
  method TrouverCreneauLibre(edt: seq<Entree>, jour: string, enseignant: string, groupe: string)
    returns (r: Option<Creneau>)
    ensures r == CreneauLibre(edt, jour, enseignant, groupe)
  {
    var ws := GetCreneaux(jour);
    var k := 0;
    while k < |ws|
      invariant 0 <= k <= |ws|
      invariant forall j :: 0 <= j < k ==> !Libre(edt, jour, ws[j].Debut(), enseignant, groupe)
    {
      var libre := true;
      var i := 0;
      while i < |edt|
        invariant 0 <= i <= |edt|
        invariant libre ==> forall j :: 0 <= j < i && edt[j].jour == jour && edt[j].debut == ws[k].Debut() ==>
          edt[j].enseignant != enseignant && edt[j].groupe != groupe
        invariant !libre ==> !Libre(edt, jour, ws[k].Debut(), enseignant, groupe)
      {
        if edt[i].jour == jour && edt[i].debut == ws[k].Debut() {
          if edt[i].enseignant == enseignant || edt[i].groupe == groupe {
            libre := false;
            break;
          }
        }
        i := i + 1;
      }
      if libre {
        PremierCreneauAt(ws, edt, jour, enseignant, groupe, k);
        return Some(ws[k]);
      }
      k := k + 1;
    }
    return None;
  }

  // ---------------------------------------------------------------------
  // Placing one session
  // ---------------------------------------------------------------------

  /** The entry built for session `s` at `(jour, c)` in room `nom`. */
  function NouvelleEntree(s: S.Seance, jour: string, c: Creneau, nom: string): Entree {
    Entree(s.moduleNom, s.enseignant, s.groupe, jour, c.Debut(), c.Fin(), nom)
  }

  /** On day `jour` both searches succeed with truthy results (`if debut:`
      and `if salle:`; an empty room name is falsy and counts as failure). */
  predicate JourPossible(salles: seq<Models.Salle>, edt: seq<Entree>, s: S.Seance, jour: string) {
    var c := CreneauLibre(edt, jour, s.enseignant, s.groupe);
    c.Some? && c.value.Debut() != "" &&
    var nom := SalleLibre(salles, edt, jour, c.value.Debut(), s.effectif);
    nom.Some? && nom.value != ""
  }

  /** The entry a possible day yields. */
  function EntreeDuJour(salles: seq<Models.Salle>, edt: seq<Entree>, s: S.Seance, jour: string): Entree
    requires JourPossible(salles, edt, s, jour)
  {
    var c := CreneauLibre(edt, jour, s.enseignant, s.groupe).value;
    NouvelleEntree(s, jour, c, SalleLibre(salles, edt, jour, c.Debut(), s.effectif).value)
  }

  /** The entry of a possible day clashes with nothing already placed: its
      window is free for the teacher and the group and its room is free at
      that window, so `detecter_conflits` is always empty when reached. */
  lemma GardeToujoursVide(salles: seq<Models.Salle>, edt: seq<Entree>, s: S.Seance, jour: string)
    requires JourPossible(salles, edt, s, jour)
    ensures DetecterConflits(edt, EntreeDuJour(salles, edt, s, jour)) == []
  {
    DetecterConflitsVide(edt, EntreeDuJour(salles, edt, s, jour));
    var e := EntreeDuJour(salles, edt, s, jour);
    var c := CreneauLibre(edt, jour, s.enseignant, s.groupe).value;
    CreneauLibreMeaning(edt, jour, s.enseignant, s.groupe);
    SalleLibreMeaning(salles, edt, jour, c.Debut(), s.effectif);
    assert Libre(edt, jour, c.Debut(), s.enseignant, s.groupe);
    assert !Occupee(edt, jour, c.Debut(), e.salle);
    forall i | 0 <= i < |edt|
      ensures !EnConflit(edt[i], e)
    {
      if MemeCreneau(edt[i], e) {
        assert edt[i].salle != e.salle;
      }
    }
  }

  /** The day loop of `generer_edt` over `jours`: the first day whose
      entry passes the conflict check. */
  function EssaiJours(salles: seq<Models.Salle>, edt: seq<Entree>, s: S.Seance, jours: seq<string>): Option<Entree> {
    if |jours| == 0 then None
    else if JourPossible(salles, edt, s, jours[0]) then
      var e := EntreeDuJour(salles, edt, s, jours[0]);
      if |DetecterConflits(edt, e)| == 0 then Some(e)
      else
        GardeToujoursVide(salles, edt, s, jours[0]);
        assert false;
        None
    else EssaiJours(salles, edt, s, jours[1..])
  }

  /** The day loop finds nothing exactly when no day is possible, and
      otherwise returns the entry of the first possible day. */
  lemma {:induction false} EssaiJoursMeaning(salles: seq<Models.Salle>, edt: seq<Entree>, s: S.Seance, jours: seq<string>)
    ensures var r := EssaiJours(salles, edt, s, jours);
      && (r.None? <==> forall d :: d in jours ==> !JourPossible(salles, edt, s, d))
      && (r.Some? ==> exists k :: (0 <= k < |jours| && JourPossible(salles, edt, s, jours[k]) &&
            r.value == EntreeDuJour(salles, edt, s, jours[k]) &&
            forall j :: 0 <= j < k ==> !JourPossible(salles, edt, s, jours[j])))
  {
    if |jours| > 0 {
      var reste := jours[1..];
      EssaiJoursMeaning(salles, edt, s, reste);
      var r := EssaiJours(salles, edt, s, jours);
      EssaiJoursPas(salles, edt, s, jours);
      if JourPossible(salles, edt, s, jours[0]) {
        assert jours[0] in jours;
      } else {
        if r.Some? {
          var k :| 0 <= k < |reste| && JourPossible(salles, edt, s, reste[k]) &&
            r.value == EntreeDuJour(salles, edt, s, reste[k]) &&
            forall j :: 0 <= j < k ==> !JourPossible(salles, edt, s, reste[j]);
          assert reste[k] == jours[k + 1];
          forall j | 0 <= j < k + 1
            ensures !JourPossible(salles, edt, s, jours[j])
          {
            if j > 0 { assert jours[j] == reste[j - 1]; }
          }
        } else {
          forall d | d in jours
            ensures !JourPossible(salles, edt, s, d)
          {
            if d != jours[0] { assert d in reste; }
          }
        }
      }
    }
  }

  /** One step of the day loop: the first day's entry if that day is
      possible, the rest of the days otherwise. */
  lemma EssaiJoursPas(salles: seq<Models.Salle>, edt: seq<Entree>, s: S.Seance, jours: seq<string>)
    requires |jours| > 0
    ensures JourPossible(salles, edt, s, jours[0]) ==>
      EssaiJours(salles, edt, s, jours) == Some(EntreeDuJour(salles, edt, s, jours[0]))
    ensures !JourPossible(salles, edt, s, jours[0]) ==>
      EssaiJours(salles, edt, s, jours) == EssaiJours(salles, edt, s, jours[1..])
  {
    if JourPossible(salles, edt, s, jours[0]) {
      GardeToujoursVide(salles, edt, s, jours[0]);
    }
  }

  /** `proposer_solution` over `jours`: the same window-then-room search as
      the day loop, without the conflict check. */
  function RechercheJours(salles: seq<Models.Salle>, edt: seq<Entree>, s: S.Seance, jours: seq<string>): Option<Entree> {
    if |jours| == 0 then None
    else
      var jour := jours[0];
      var c := CreneauLibre(edt, jour, s.enseignant, s.groupe);
      if c.Some? && c.value.Debut() != "" then
        var nom := SalleLibre(salles, edt, jour, c.value.Debut(), s.effectif);
        if nom.Some? && nom.value != "" then Some(NouvelleEntree(s, jour, c.value, nom.value))
        else RechercheJours(salles, edt, s, jours[1..])
      else RechercheJours(salles, edt, s, jours[1..])
  }

  function ProposerSolution(salles: seq<Models.Salle>, edt: seq<Entree>, s: S.Seance): Option<Entree> {
    RechercheJours(salles, edt, s, JOURS)
  }

  /** The fallback repeats the day loop's search on the same timetable and
      finds the same entry, so it never places a session the day loop
      could not. */
  lemma {:induction false} FallbackIsDayLoop(salles: seq<Models.Salle>, edt: seq<Entree>, s: S.Seance, jours: seq<string>)
    ensures RechercheJours(salles, edt, s, jours) == EssaiJours(salles, edt, s, jours)
    ensures EssaiJours(salles, edt, s, jours).None? ==> RechercheJours(salles, edt, s, jours).None?
  {
    if |jours| > 0 {
      FallbackIsDayLoop(salles, edt, s, jours[1..]);
      EssaiJoursPas(salles, edt, s, jours);
    }
  }

  /** One iteration of the loop over sessions. */
  function PlacerSeance(salles: seq<Models.Salle>, edt: seq<Entree>, s: S.Seance): seq<Entree> {
    match EssaiJours(salles, edt, s, JOURS)
    case Some(e) => edt + [e]
    case None =>
      match ProposerSolution(salles, edt, s)
      case Some(e) => edt + [e]
      case None => edt
  }

  /** `generer_edt` without the file I/O: the timetable after the sessions
      of `seances` have been taken in order. */
  function Generer(salles: seq<Models.Salle>, seances: seq<S.Seance>): seq<Entree> {
    if |seances| == 0 then []
    else PlacerSeance(salles, Generer(salles, seances[..|seances| - 1]), seances[|seances| - 1])
  }

  // ---------------------------------------------------------------------
  // Properties of the placer
  // ---------------------------------------------------------------------

  /** No two entries share day and start with the same room, the same
      teacher or the same group. */
  predicate SansDoubleReservation(edt: seq<Entree>) {
    forall i, j :: 0 <= i < j < |edt| && MemeCreneau(edt[i], edt[j]) ==>
      edt[i].salle != edt[j].salle &&
      edt[i].enseignant != edt[j].enseignant &&
      edt[i].groupe != edt[j].groupe
  }

  /** `e` is a correct placement of session `s`: it carries the session's
      module, teacher and group, lies on a day of the week at one of that
      day's windows, and names a room of the catalog that seats the
      session's head count. */
  predicate PlacementValide(salles: seq<Models.Salle>, e: Entree, s: S.Seance) {
    && e.moduleNom == s.moduleNom && e.enseignant == s.enseignant && e.groupe == s.groupe
    && e.jour in JOURS
    && (exists c :: c in GetCreneaux(e.jour) && c.Debut() == e.debut && c.Fin() == e.fin)
    && exists k :: 0 <= k < |salles| && salles[k].nom == e.salle && salles[k].EstDisponiblePour(s.effectif)
  }

  /** The entry of a possible day of the week is a valid placement of the
      session and clashes with no entry already placed. */
  lemma EntreeDuJourValide(salles: seq<Models.Salle>, edt: seq<Entree>, s: S.Seance, jour: string)
    requires jour in JOURS && JourPossible(salles, edt, s, jour)
    ensures PlacementValide(salles, EntreeDuJour(salles, edt, s, jour), s)
    ensures forall i :: 0 <= i < |edt| ==> !EnConflit(edt[i], EntreeDuJour(salles, edt, s, jour))
  {
    var c := CreneauLibre(edt, jour, s.enseignant, s.groupe).value;
    CreneauLibreMeaning(edt, jour, s.enseignant, s.groupe);
    SalleLibreMeaning(salles, edt, jour, c.Debut(), s.effectif);
    GardeToujoursVide(salles, edt, s, jour);
    var e := EntreeDuJour(salles, edt, s, jour);
    assert c in GetCreneaux(e.jour) && c.Debut() == e.debut && c.Fin() == e.fin;
  }

  /** Placing one session appends the day loop's entry if there is one and
      leaves the timetable unchanged otherwise. */
  lemma PlacerSeanceCas(salles: seq<Models.Salle>, edt: seq<Entree>, s: S.Seance)
    ensures EssaiJours(salles, edt, s, JOURS).None? ==> PlacerSeance(salles, edt, s) == edt
    ensures EssaiJours(salles, edt, s, JOURS).Some? ==>
      PlacerSeance(salles, edt, s) == edt + [EssaiJours(salles, edt, s, JOURS).value]
  {
    FallbackIsDayLoop(salles, edt, s, JOURS);
  }

  /** Placing one session leaves the timetable as it was exactly when no
      day of the week is possible for it. */
  lemma PlacerSeanceInchange(salles: seq<Models.Salle>, edt: seq<Entree>, s: S.Seance)
    ensures PlacerSeance(salles, edt, s) == edt <==> forall d :: d in JOURS ==> !JourPossible(salles, edt, s, d)
  {
    PlacerSeanceCas(salles, edt, s);
    EssaiJoursMeaning(salles, edt, s, JOURS);
  }

  /** Otherwise it appends one entry, a valid placement of the session that
      clashes with no earlier entry. */
  lemma PlacerSeanceAjout(salles: seq<Models.Salle>, edt: seq<Entree>, s: S.Seance)
    ensures var r := PlacerSeance(salles, edt, s);
      r != edt ==>
        |r| == |edt| + 1 && r[..|edt|] == edt && PlacementValide(salles, r[|edt|], s) &&
        forall i :: 0 <= i < |edt| ==> !EnConflit(edt[i], r[|edt|])
  {
    PlacerSeanceCas(salles, edt, s);
    EssaiJoursMeaning(salles, edt, s, JOURS);
    var r := PlacerSeance(salles, edt, s);
    var o := EssaiJours(salles, edt, s, JOURS);
    if o.Some? {
      var k :| 0 <= k < |JOURS| && JourPossible(salles, edt, s, JOURS[k]) &&
        o.value == EntreeDuJour(salles, edt, s, JOURS[k]) &&
        forall j :: 0 <= j < k ==> !JourPossible(salles, edt, s, JOURS[j]);
      EntreeDuJourValide(salles, edt, s, JOURS[k]);
      assert r[|edt|] == o.value;
    }
  }

  /** Appending an entry that clashes with nothing keeps the timetable free
      of double bookings. */
  lemma AppendKeepsNoDoubleBooking(edt: seq<Entree>, e: Entree)
    requires SansDoubleReservation(edt)
    requires forall i :: 0 <= i < |edt| ==> !EnConflit(edt[i], e)
    ensures SansDoubleReservation(edt + [e])
  {
    var r := edt + [e];
    forall i, j | 0 <= i < j < |r| && MemeCreneau(r[i], r[j])
      ensures r[i].salle != r[j].salle && r[i].enseignant != r[j].enseignant && r[i].groupe != r[j].groupe
    {
      if j == |edt| {
        assert !EnConflit(edt[i], e);
      }
    }
  }

  /** One session more adds at most one entry at the end. */
  lemma GenererPas(salles: seq<Models.Salle>, seances: seq<S.Seance>)
    requires |seances| > 0
    ensures var avant := Generer(salles, seances[..|seances| - 1]);
      var apres := Generer(salles, seances);
      apres == avant || (|apres| == |avant| + 1 && apres[..|avant|] == avant)
  {
    var n := |seances| - 1;
    PlacerSeanceAjout(salles, Generer(salles, seances[..n]), seances[n]);
  }

  /** Headline theorem: the generated timetable has no double booking and
      at most one entry per session. */
  lemma {:induction false} GenererSansConflit(salles: seq<Models.Salle>, seances: seq<S.Seance>)
    ensures SansDoubleReservation(Generer(salles, seances))
    ensures |Generer(salles, seances)| <= |seances|
  {
    if |seances| > 0 {
      var n := |seances| - 1;
      var prefix := seances[..n];
      GenererSansConflit(salles, prefix);
      var avant := Generer(salles, prefix);
      PlacerSeanceAjout(salles, avant, seances[n]);
      var apres := Generer(salles, seances);
      assert apres == PlacerSeance(salles, avant, seances[n]);
      if apres != avant {
        assert apres == avant + [apres[|avant|]];
        AppendKeepsNoDoubleBooking(avant, apres[|avant|]);
      }
    }
  }

  /** The timetable only grows: the timetable after the first `i` sessions
      is a prefix of the final one. */
  lemma {:induction false} GenererPrefixe(salles: seq<Models.Salle>, seances: seq<S.Seance>, i: nat)
    requires i <= |seances|
    ensures |Generer(salles, seances[..i])| <= |Generer(salles, seances)|
    ensures Generer(salles, seances[..i]) == Generer(salles, seances)[..|Generer(salles, seances[..i])|]
    decreases |seances|
  {
    if i == |seances| {
      assert seances[..i] == seances;
    } else {
      var n := |seances| - 1;
      var prefix := seances[..n];
      assert prefix[..i] == seances[..i];
      GenererPrefixe(salles, prefix, i);
      GenererPas(salles, seances);
    }
  }

  /** Which sessions were placed: the index of the session behind each
      timetable entry. */
  function Origines(salles: seq<Models.Salle>, seances: seq<S.Seance>): seq<nat> {
    if |seances| == 0 then []
    else
      var n := |seances| - 1;
      if |PlacerSeance(salles, Generer(salles, seances[..n]), seances[n])| > |Generer(salles, seances[..n])|
      then Origines(salles, seances[..n]) + [n]
      else Origines(salles, seances[..n])
  }

  /** There is one origin per entry, every origin is a session index and
      the origins strictly increase: one entry per placed session, in input
      order. */
  lemma {:induction false} OriginesCroissantes(salles: seq<Models.Salle>, seances: seq<S.Seance>)
    ensures var o := Origines(salles, seances);
      && |o| == |Generer(salles, seances)|
      && (forall k :: 0 <= k < |o| ==> o[k] < |seances|)
      && (forall k, l :: 0 <= k < l < |o| ==> o[k] < o[l])
  {
    if |seances| > 0 {
      var n := |seances| - 1;
      var prefix := seances[..n];
      OriginesCroissantes(salles, prefix);
      GenererPas(salles, seances);
    }
  }

  /** Headline theorem: entry `k` of the timetable is a valid placement of
      the session `Origines[k]`. */
  lemma {:induction false} GenererTrace(salles: seq<Models.Salle>, seances: seq<S.Seance>)
    ensures |Origines(salles, seances)| == |Generer(salles, seances)|
    ensures forall k :: 0 <= k < |Origines(salles, seances)| ==>
      Origines(salles, seances)[k] < |seances| &&
      PlacementValide(salles, Generer(salles, seances)[k], seances[Origines(salles, seances)[k]])
  {
    OriginesCroissantes(salles, seances);
    if |seances| > 0 {
      var n := |seances| - 1;
      var prefix := seances[..n];
      GenererTrace(salles, prefix);
      var avant := Generer(salles, prefix);
      var oAvant := Origines(salles, prefix);
      PlacerSeanceAjout(salles, avant, seances[n]);
      var edt := Generer(salles, seances);
      var o := Origines(salles, seances);
      assert edt == PlacerSeance(salles, avant, seances[n]);
      forall k | 0 <= k < |o|
        ensures PlacementValide(salles, edt[k], seances[o[k]])
      {
        if k < |oAvant| {
          assert o[k] == oAvant[k] && edt[k] == avant[k] && seances[o[k]] == prefix[oAvant[k]];
        } else {
          assert o[k] == n && edt[k] == edt[|avant|];
        }
      }
    }
  }

  /** A session without an entry is one whose placement, when its turn
      came, left the timetable unchanged. */
  lemma {:induction false} GenererSansEntree(salles: seq<Models.Salle>, seances: seq<S.Seance>)
    ensures forall i :: 0 <= i < |seances| && i !in Origines(salles, seances) ==>
      PlacerSeance(salles, Generer(salles, seances[..i]), seances[i]) == Generer(salles, seances[..i])
  {
    if |seances| > 0 {
      var n := |seances| - 1;
      var prefix := seances[..n];
      GenererSansEntree(salles, prefix);
      var avant := Generer(salles, prefix);
      var o := Origines(salles, seances);
      var oAvant := Origines(salles, prefix);
      assert o == oAvant || o == oAvant + [n];
      forall i | 0 <= i < |seances| && i !in o
        ensures PlacerSeance(salles, Generer(salles, seances[..i]), seances[i]) == Generer(salles, seances[..i])
      {
        if i < n {
          assert i !in oAvant;
          assert seances[..i] == prefix[..i] && seances[i] == prefix[i];
        } else {
          assert seances[..i] == prefix;
          GenererPas(salles, seances);
        }
      }
    }
  }

  /** Headline theorem: a session without an entry is one for which, when
      its turn came, no day had both a free window and a free room large
      enough. */
  lemma GenererAbandons(salles: seq<Models.Salle>, seances: seq<S.Seance>, i: nat)
    requires i < |seances| && i !in Origines(salles, seances)
    ensures forall d :: d in JOURS ==> !JourPossible(salles, Generer(salles, seances[..i]), seances[i], d)
  {
    GenererSansEntree(salles, seances);
    PlacerSeanceInchange(salles, Generer(salles, seances[..i]), seances[i]);
  }

  /** One session of `generer_edt` as written: days in `JOURS` order,
      `trouver_creneau_libre` then `trouver_salle_libre`, the conflict check,
      and `proposer_solution` when no day accepted the session. */
  method PlacerSeanceBoucle(salles: seq<Models.Salle>, edt: seq<Entree>, s: S.Seance) returns (r: seq<Entree>)
    ensures r == PlacerSeance(salles, edt, s)
  {
    var d := 0;
    while d < |JOURS|
      invariant 0 <= d <= |JOURS|
      invariant EssaiJours(salles, edt, s, JOURS) == EssaiJours(salles, edt, s, JOURS[d..])
    {
      var jour := JOURS[d];
      EssaiJoursPas(salles, edt, s, JOURS[d..]);
      assert JOURS[d..][0] == jour && JOURS[d..][1..] == JOURS[d + 1..];
      var c := TrouverCreneauLibre(edt, jour, s.enseignant, s.groupe);
      if c.Some? && c.value.Debut() != "" {
        var salle := TrouverSalleLibre(salles, edt, jour, c.value.Debut(), s.effectif);
        if salle.Some? && salle.value != "" {
          var nouvelle := NouvelleEntree(s, jour, c.value, salle.value);
          assert JourPossible(salles, edt, s, jour) && nouvelle == EntreeDuJour(salles, edt, s, jour);
          var conflits := DetecterConflits(edt, nouvelle);
          if |conflits| == 0 {
            PlacerSeanceCas(salles, edt, s);
            return edt + [nouvelle];
          }
          GardeToujoursVide(salles, edt, s, jour);
          assert false;
        }
      }
      d := d + 1;
    }
    PlacerSeanceCas(salles, edt, s);
    r := edt;
    var solution := ProposerSolution(salles, edt, s);
    if solution.Some? {
      r := edt + [solution.value];
    }
  }

  /** `generer_edt` as written: sessions in input order. */
  method GenererEdt(salles: seq<Models.Salle>, seances: seq<S.Seance>) returns (edt: seq<Entree>)
    ensures edt == Generer(salles, seances)
    ensures SansDoubleReservation(edt)
    ensures |edt| <= |seances|
  {
    edt := [];
    var n := 0;
    while n < |seances|
      invariant 0 <= n <= |seances|
      invariant edt == Generer(salles, seances[..n])
    {
      edt := PlacerSeanceBoucle(salles, edt, seances[n]);
      assert seances[..n + 1][..n] == seances[..n];
      n := n + 1;
    }
    assert seances[..n] == seances;
    GenererSansConflit(salles, seances);
  }
}
