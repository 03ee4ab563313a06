/** The domain classes of logic/models.py: rooms, cohorts, teaching modules,
    dated sessions and room reservations, with their "HH:MM" time fields,
    duration, overlap tests and the reservation status machine. */
module Models {
  import opened Wrappers
  import Text

  // ---------------------------------------------------------------------
  // Enumerations
  // ---------------------------------------------------------------------

  datatype TypeSeance = Cours | TD | TP

  /** `TypeSeance(value)`: the member whose value is the given string. */
  function TypeSeanceFromValue(s: string): Option<TypeSeance> {
    if s == "Cours" then Some(Cours)
    else if s == "TD" then Some(TD)
    else if s == "TP" then Some(TP)
    else None
  }

  function TypeSeanceValue(t: TypeSeance): string {
    match t
    case Cours => "Cours"
    case TD => "TD"
    case TP => "TP"
  }

  datatype JourSemaine = Lundi | Mardi | Mercredi | Jeudi | Vendredi | Samedi

  /** `JourSemaine(value)`: the weekday whose value is the given name. */
  function JourFromValue(s: string): Option<JourSemaine> {
    if s == "Lundi" then Some(Lundi)
    else if s == "Mardi" then Some(Mardi)
    else if s == "Mercredi" then Some(Mercredi)
    else if s == "Jeudi" then Some(Jeudi)
    else if s == "Vendredi" then Some(Vendredi)
    else if s == "Samedi" then Some(Samedi)
    else None
  }

  function JourValue(j: JourSemaine): string {
    match j
    case Lundi => "Lundi"
    case Mardi => "Mardi"
    case Mercredi => "Mercredi"
    case Jeudi => "Jeudi"
    case Vendredi => "Vendredi"
    case Samedi => "Samedi"
  }

  /** Enum lookup by value and `.value` are inverse to each other. */
  lemma EnumValuesRoundTrip(t: TypeSeance, j: JourSemaine, s: string)
    ensures TypeSeanceFromValue(TypeSeanceValue(t)) == Some(t)
    ensures JourFromValue(JourValue(j)) == Some(j)
    ensures TypeSeanceFromValue(s) == Some(t) ==> TypeSeanceValue(t) == s
    ensures JourFromValue(s) == Some(j) ==> JourValue(j) == s
  {
  }

  datatype StatutReservation = Confirmee | EnAttente | Annulee

  function StatutFromValue(s: string): Option<StatutReservation> {
    if s == "confirmée" then Some(Confirmee)
    else if s == "en_attente" then Some(EnAttente)
    else if s == "annulée" then Some(Annulee)
    else None
  }

  // ---------------------------------------------------------------------
  // Rooms, cohorts, modules
  // ---------------------------------------------------------------------

  /** A room as the scheduler sees it: its name and its seat count. */
  datatype Salle = Salle(nom: string, capacite: int) {
    predicate EstDisponiblePour(nombreEtudiants: int) {
      capacite >= nombreEtudiants
    }
  }

  /** A cohort (filière) with its head count. */
  datatype Groupe = Groupe(code: string, effectif: int) {
    predicate PeutTenirDans(salle: Salle) {
      salle.EstDisponiblePour(effectif)
    }
  }

  /** A teaching module's weekly session counts per kind. */
  datatype ModuleCours = ModuleCours(
    code: string, nom: string,
    nbSeancesCours: int, nbSeancesTd: int, nbSeancesTp: int)
  {
    function NombreTotalSeances(): int {
      nbSeancesCours + nbSeancesTd + nbSeancesTp
    }
    predicate ADesCours() { nbSeancesCours > 0 }
    predicate ADesTd() { nbSeancesTd > 0 }
    predicate ADesTp() { nbSeancesTp > 0 }
  }

  /** With non-negative counts, a module has no session at all exactly when
      it has none of any kind, and the total bounds every single count. */
  lemma ModuleCounts(m: ModuleCours)
    requires m.nbSeancesCours >= 0 && m.nbSeancesTd >= 0 && m.nbSeancesTp >= 0
    ensures m.NombreTotalSeances() == 0 <==> !(m.ADesCours() || m.ADesTd() || m.ADesTp())
    ensures m.nbSeancesCours <= m.NombreTotalSeances()
    ensures m.nbSeancesTd <= m.NombreTotalSeances()
    ensures m.nbSeancesTp <= m.NombreTotalSeances()
  {
  }

  // ---------------------------------------------------------------------
  // Times of day
  // ---------------------------------------------------------------------

  /** A `datetime.time` with minute precision. */
  datatype Heure = Heure(h: int, m: int) {
    /** The range `time(h, m)` accepts. */
    predicate Valid() {
      0 <= h < 24 && 0 <= m < 60
    }
    function Minutes(): int {
      h * 60 + m
    }
  }

  type HeureValide = t: Heure | t.Valid() witness Heure(0, 0)

  datatype TimeError = NotTwoFields | NotAnInteger | OutOfRange

  /** Python's `int(s)` on an optional sign followed by ASCII digits. */
  function ParseInt(s: string): (r: Option<int>)
    ensures Text.AllDigits(s) && 0 < |s| ==> r == Some(Text.DigitsValue(s))
  {
    if |s| == 0 then None
    else if s[0] == '-' || s[0] == '+' then
      var body := s[1..];
      if 0 < |body| && Text.AllDigits(body) then
        var v: int := Text.DigitsValue(body);
        Some(if s[0] == '-' then -v else v)
      else None
    else if Text.AllDigits(s) then Some(Text.DigitsValue(s))
    else None
  }

  /** `h, m = map(int, s.split(':'))` followed by `time(h, m)`. */
  function ParseHeure(s: string): (r: Result<Heure, TimeError>)
    ensures r.Ok? ==> r.value.Valid()
  {
    var parts := Text.Split(s, ':');
    if |parts| != 2 then Err(NotTwoFields)
    else
      match (ParseInt(parts[0]), ParseInt(parts[1]))
      case (Some(h), Some(m)) =>
        if Heure(h, m).Valid() then Ok(Heure(h, m)) else Err(OutOfRange)
      case _ => Err(NotAnInteger)
  }

  /** Two-digit zero-padded numeral, as `%H` and `%M` print. */
  function Pad2(n: nat): (r: string)
    requires n < 100
    ensures |r| == 2 && Text.AllDigits(r)
  {
    [Text.DigitChar(n / 10), Text.DigitChar(n % 10)]
  }

  /** `t.strftime('%H:%M')`. */
  function FormatHeure(t: Heure): (r: string)
    requires t.Valid()
    ensures |r| == 5 && r[2] == ':'
  {
    Pad2(t.h) + ":" + Pad2(t.m)
  }

  lemma Pad2Value(n: nat)
    requires n < 100
    ensures Text.DigitsValue(Pad2(n)) == n
  {
    var s := Pad2(n);
    TwoDigitsValue(s);
  }

  lemma TwoDigitsValue(s: string)
    requires |s| == 2 && Text.AllDigits(s)
    ensures Text.DigitsValue(s) == Text.DigitValue(s[0]) * 10 + Text.DigitValue(s[1])
  {
    var first := s[..1];
    assert first[..0] == [];
    assert Text.DigitsValue(first) == Text.DigitValue(s[0]);
  }

  /** A two-digit numeral is the padded form of its own value. */
  lemma Pad2OfDigits(s: string)
    requires |s| == 2 && Text.AllDigits(s)
    ensures Text.DigitsValue(s) < 100
    ensures Pad2(Text.DigitsValue(s)) == s
  {
    TwoDigitsValue(s);
    Text.DigitCharOfValue(s[0]);
    Text.DigitCharOfValue(s[1]);
  }

  /** Parsing "HH:MM" built from two two-digit numerals: in range it gives
      that time, out of range it is rejected. */
  lemma ParsePadded(h: nat, m: nat)
    requires h < 100 && m < 100
    ensures Heure(h, m).Valid() ==> ParseHeure(Pad2(h) + ":" + Pad2(m)) == Ok(Heure(h, m))
    ensures !Heure(h, m).Valid() ==> ParseHeure(Pad2(h) + ":" + Pad2(m)) == Err(OutOfRange)
  {
    var hh, mm := Pad2(h), Pad2(m);
    assert ':' !in hh && ':' !in mm;
    Text.SplitAtOnlySeparator(hh, ':', mm);
    assert Pad2(h) + ":" + Pad2(m) == hh + [':'] + mm;
    Pad2Value(h);
    Pad2Value(m);
    assert ParseInt(hh) == Some(h as int);
    assert ParseInt(mm) == Some(m as int);
  }

  /** Formatting a valid time and parsing the text back gives the same time. */
  lemma ParseFormatRoundTrip(t: Heure)
    requires t.Valid()
    ensures ParseHeure(FormatHeure(t)) == Ok(t)
  {
    ParsePadded(t.h, t.m);
  }

  /** A canonical "HH:MM" text is accepted exactly when its fields are in
      range, and then formatting the parsed time reproduces the text. */
  lemma FormatParseRoundTrip(s: string)
    requires |s| == 5 && s[2] == ':'
    requires Text.AllDigits(s[..2]) && Text.AllDigits(s[3..])
    ensures ParseHeure(s).Ok? <==>
      Text.DigitsValue(s[..2]) < 24 && Text.DigitsValue(s[3..]) < 60
    ensures ParseHeure(s).Ok? ==> FormatHeure(ParseHeure(s).value) == s
  {
    var hh, mm := s[..2], s[3..];
    Pad2OfDigits(hh);
    Pad2OfDigits(mm);
    var h, m := Text.DigitsValue(hh), Text.DigitsValue(mm);
    assert s == Pad2(h) + ":" + Pad2(m);
    ParsePadded(h, m);
  }

  /** Two texts of the slot tables parse to their values. */
  lemma ParseExamples()
    ensures ParseHeure("09:00") == Ok(Heure(9, 0))
    ensures ParseHeure("10:30") == Ok(Heure(10, 30))
  {
    ParsePadded(9, 0);
    assert Pad2(9) + ":" + Pad2(0) == "09:00";
    ParsePadded(10, 30);
    assert Pad2(10) + ":" + Pad2(30) == "10:30";
  }

  /** Hour 24 and minute 60 are refused as out of range. */
  lemma ParseOutOfRangeExamples()
    ensures ParseHeure("24:00") == Err(OutOfRange)
    ensures ParseHeure("12:60") == Err(OutOfRange)
  {
    ParsePadded(24, 0);
    assert Pad2(24) + ":" + Pad2(0) == "24:00";
    ParsePadded(12, 60);
    assert Pad2(12) + ":" + Pad2(60) == "12:60";
  }

  /** A text without a colon is not a time: `"0930"` is rejected. */
  lemma ParseSansDeuxPoints(s: string)
    requires ':' !in s
    ensures ParseHeure(s) == Err(NotTwoFields)
  {
    assert Text.Split(s, ':') == [s];
  }

  /** Python's `int(x)` on an exact quotient: truncation toward zero. */
  function TruncDiv(a: int, b: int): int
    requires b > 0
  {
    if a >= 0 then a / b else -((-a) / b)
  }

  /** `int((fin - debut).total_seconds() / 60)` where both times are
      combined with the same date: the signed difference in minutes. The
      source reads today's date once per time; a date change between the
      two reads is not modelled. */
  function DureeMinutes(debut: Heure, fin: Heure): (r: int)
    ensures r == (fin.h * 60 + fin.m) - (debut.h * 60 + debut.m)
  {
    var seconds := (fin.Minutes() - debut.Minutes()) * 60;
    TruncDiv(seconds, 60)
  }

  // ---------------------------------------------------------------------
  // Sessions and reservations with times
  // ---------------------------------------------------------------------

  /** A Python integer is truthy unless it is `None` or zero. */
  predicate Truthy(w: Option<int>) {
    w.Some? && w.value != 0
  }

  /** Half-open intervals [d1, f1) and [d2, f2) share a minute, written as
      `not (f1 <= d2 or d1 >= f2)`. */
  predicate IntervallesSeChevauchent(d1: Heure, f1: Heure, d2: Heure, f2: Heure) {
    !(f1.Minutes() <= d2.Minutes() || d1.Minutes() >= f2.Minutes())
  }

  predicate Pendant(t: int, debut: Heure, fin: Heure) {
    debut.Minutes() <= t < fin.Minutes()
  }

  /** The overlap test agrees with the set reading of half-open intervals
      when both intervals are non-empty. An empty or inverted interval
      (end not after start) contains no minute, yet the test still reports
      it as overlapping any interval that straddles its start. */
  lemma OverlapIffCommonMinute(d1: Heure, f1: Heure, d2: Heure, f2: Heure)
    ensures (exists t :: Pendant(t, d1, f1) && Pendant(t, d2, f2)) ==>
      IntervallesSeChevauchent(d1, f1, d2, f2)
    ensures d1.Minutes() < f1.Minutes() && d2.Minutes() < f2.Minutes() ==>
      (IntervallesSeChevauchent(d1, f1, d2, f2) <==>
        exists t :: Pendant(t, d1, f1) && Pendant(t, d2, f2))
    ensures IntervallesSeChevauchent(Heure(10, 0), Heure(10, 0), Heure(9, 0), Heure(11, 0))
  {
    if IntervallesSeChevauchent(d1, f1, d2, f2) && d1.Minutes() < f1.Minutes() && d2.Minutes() < f2.Minutes() {
      var t := if d1.Minutes() < d2.Minutes() then d2.Minutes() else d1.Minutes();
      assert Pendant(t, d1, f1) && Pendant(t, d2, f2);
    }
  }

  datatype Seance = Seance(
    id: int, moduleId: int, groupeId: int, enseignantId: int, salleId: int,
    typ: TypeSeance, jour: JourSemaine,
    heureDebut: HeureValide, heureFin: HeureValide,
    semaine: Option<int>)

  /** `Seance.__init__` from the string fields of a record: the type and the
      day must name enum members and both times must parse. */
  function NouvelleSeance(
    id: int, moduleId: int, groupeId: int, enseignantId: int, salleId: int,
    typ: string, jour: string, heureDebut: string, heureFin: string,
    semaine: Option<int>): (r: Option<Seance>)
    ensures r.Some? <==>
      TypeSeanceFromValue(typ).Some? && JourFromValue(jour).Some? &&
      ParseHeure(heureDebut).Ok? && ParseHeure(heureFin).Ok?
    ensures r.Some? ==> JourValue(r.value.jour) == jour && TypeSeanceValue(r.value.typ) == typ
    ensures r.Some? ==> ParseHeure(heureDebut) == Ok(r.value.heureDebut) && ParseHeure(heureFin) == Ok(r.value.heureFin)
    ensures r.Some? ==> r.value.semaine == semaine
  {
    match (TypeSeanceFromValue(typ), JourFromValue(jour), ParseHeure(heureDebut), ParseHeure(heureFin))
    case (Some(t), Some(j), Ok(d), Ok(f)) =>
      EnumValuesRoundTrip(t, j, typ);
      EnumValuesRoundTrip(t, j, jour);
      Some(Seance(id, moduleId, groupeId, enseignantId, salleId, t, j, d, f, semaine))
    case _ => None
  }

  /** `Seance.chevauche`. */
  predicate Chevauche(a: Seance, b: Seance) {
    if a.jour != b.jour then false
    else if Truthy(a.semaine) && Truthy(b.semaine) && a.semaine != b.semaine then false
    else IntervallesSeChevauchent(a.heureDebut, a.heureFin, b.heureDebut, b.heureFin)
  }

  /** Two sessions of positive length clash exactly when they fall on the
      same day, their weeks are not two different set weeks, and some
      minute lies in both. */
  lemma ChevaucheMeaning(a: Seance, b: Seance)
    requires a.heureDebut.Minutes() < a.heureFin.Minutes()
    requires b.heureDebut.Minutes() < b.heureFin.Minutes()
    ensures Chevauche(a, b) <==>
      a.jour == b.jour &&
      !(Truthy(a.semaine) && Truthy(b.semaine) && a.semaine != b.semaine) &&
      exists t :: Pendant(t, a.heureDebut, a.heureFin) && Pendant(t, b.heureDebut, b.heureFin)
  {
    OverlapIffCommonMinute(a.heureDebut, a.heureFin, b.heureDebut, b.heureFin);
  }

  /** Overlap is symmetric, back-to-back sessions never overlap, and a
      session of positive length overlaps itself. */
  lemma ChevaucheProperties(a: Seance, b: Seance)
    ensures Chevauche(a, b) == Chevauche(b, a)
    ensures a.heureFin == b.heureDebut ==> !Chevauche(a, b)
    ensures a.heureFin.Minutes() > a.heureDebut.Minutes() ==> Chevauche(a, a)
    ensures a.jour != b.jour ==> !Chevauche(a, b)
  {
  }

  /** `Seance.to_dict` times are `%H:%M` texts that parse back to the
      session's times. */
  lemma SeanceTimesRoundTrip(s: Seance)
    ensures ParseHeure(FormatHeure(s.heureDebut)) == Ok(s.heureDebut)
    ensures ParseHeure(FormatHeure(s.heureFin)) == Ok(s.heureFin)
  {
    ParseFormatRoundTrip(s.heureDebut);
    ParseFormatRoundTrip(s.heureFin);
  }

  /** 09:00 to 10:30 lasts 90 minutes. */
  lemma DureeExample()
    ensures DureeMinutes(Heure(9, 0), Heure(10, 30)) == 90
  {
  }

  datatype Reservation = Reservation(
    id: int, salleId: int, enseignantId: int, groupeId: Option<int>,
    jour: JourSemaine, heureDebut: HeureValide, heureFin: HeureValide,
    motif: string, statut: StatutReservation)

  /** `Reservation.__init__` from string fields; an absent status means the
      default "confirmée". */
  function NouvelleReservation(
    id: int, salleId: int, enseignantId: int, jour: string,
    heureDebut: string, heureFin: string, motif: string,
    groupeId: Option<int>, statut: Option<string>): (r: Option<Reservation>)
    ensures r.Some? <==>
      JourFromValue(jour).Some? && ParseHeure(heureDebut).Ok? && ParseHeure(heureFin).Ok? &&
      StatutFromValue(statut.GetOr("confirmée")).Some?
    ensures (statut.None? && JourFromValue(jour).Some? &&
             ParseHeure(heureDebut).Ok? && ParseHeure(heureFin).Ok?) ==>
              r.Some? && r.value.statut == Confirmee
    ensures r.Some? ==> Some(r.value.statut) == StatutFromValue(statut.GetOr("confirmée"))
    ensures r.Some? ==> JourValue(r.value.jour) == jour
    ensures r.Some? ==> ParseHeure(heureDebut) == Ok(r.value.heureDebut) && ParseHeure(heureFin) == Ok(r.value.heureFin)
  {
    var st := StatutFromValue(statut.GetOr("confirmée"));
    match (JourFromValue(jour), ParseHeure(heureDebut), ParseHeure(heureFin), st)
    case (Some(j), Ok(d), Ok(f), Some(s)) =>
      EnumValuesRoundTrip(Cours, j, jour);
      Some(Reservation(id, salleId, enseignantId, groupeId, j, d, f, motif, s))
    case _ => None
  }

  function Confirmer(r: Reservation): Reservation {
    r.(statut := Confirmee)
  }

  function MettreEnAttente(r: Reservation): Reservation {
    r.(statut := EnAttente)
  }

  function Annuler(r: Reservation): Reservation {
    r.(statut := Annulee)
  }

  predicate EstConfirmee(r: Reservation) {
    r.statut == Confirmee
  }

  /** The status setters ignore the previous status: each one's result is
      the same whatever the reservation's status was, a later setter
      overrides an earlier one, and only the confirming one makes the
      reservation confirmed. */
  lemma StatusMachine(r: Reservation, s: StatutReservation)
    ensures Confirmer(r.(statut := s)) == Confirmer(r)
    ensures MettreEnAttente(r.(statut := s)) == MettreEnAttente(r)
    ensures Annuler(r.(statut := s)) == Annuler(r)
    ensures EstConfirmee(Confirmer(r))
    ensures !EstConfirmee(MettreEnAttente(r)) && !EstConfirmee(Annuler(r))
    ensures EstConfirmee(r) <==> r.statut == Confirmee
    ensures Annuler(Confirmer(r)) == Annuler(r)
    ensures Confirmer(Annuler(r)).jour == r.jour && Confirmer(Annuler(r)).motif == r.motif
  {
  }

  /** `Reservation.chevauche_seance`: same day and overlapping times; the
      session's week plays no part. */
  predicate ChevaucheSeance(r: Reservation, s: Seance) {
    if r.jour != s.jour then false
    else IntervallesSeChevauchent(r.heureDebut, r.heureFin, s.heureDebut, s.heureFin)
  }

  /** A reservation and a session, both of positive length, clash exactly
      when they share the day and some minute, whatever week the session is
      in. */
  lemma ChevaucheSeanceMeaning(r: Reservation, s: Seance, w: Option<int>)
    requires r.heureDebut.Minutes() < r.heureFin.Minutes()
    requires s.heureDebut.Minutes() < s.heureFin.Minutes()
    ensures ChevaucheSeance(r, s) <==>
      r.jour == s.jour &&
      exists t :: Pendant(t, r.heureDebut, r.heureFin) && Pendant(t, s.heureDebut, s.heureFin)
    ensures ChevaucheSeance(r, s.(semaine := w)) == ChevaucheSeance(r, s)
  {
    OverlapIffCommonMinute(r.heureDebut, r.heureFin, s.heureDebut, s.heureFin);
  }
}
