/** Room reservations, logic/reservation_manager.py. A teacher asks for a
    room at a (day, start) pair; the request is stored only when neither the
    generated timetable nor an earlier reservation already uses that room at
    that day and start. The two JSON files are given here as the sequences
    they hold. */
module ReservationManager {
  import E = EdtGenerator

  /** A reservation request as the teacher's form builds it. */
  datatype Demande = Demande(enseignant: string, salle: string, jour: string, debut: string, motif: string)

  /** The three fields the availability test compares. */
  datatype Cle = Cle(salle: string, jour: string, debut: string)

  function CleEntree(e: E.Entree): Cle { Cle(e.salle, e.jour, e.debut) }

  function CleDemande(d: Demande): Cle { Cle(d.salle, d.jour, d.debut) }

  function ClesEdt(edt: seq<E.Entree>): (r: seq<Cle>)
    ensures |r| == |edt|
    ensures forall i :: 0 <= i < |edt| ==> r[i] == CleEntree(edt[i])
  {
    if |edt| == 0 then [] else [CleEntree(edt[0])] + ClesEdt(edt[1..])
  }

  function ClesReservations(rs: seq<Demande>): (r: seq<Cle>)
    ensures |r| == |rs|
    ensures forall i :: 0 <= i < |rs| ==> r[i] == CleDemande(rs[i])
  {
    if |rs| == 0 then [] else [CleDemande(rs[0])] + ClesReservations(rs[1..])
  }

  /** The `edt + reservations` the availability loop walks, reduced to the
      compared fields. */
  function Occupations(edt: seq<E.Entree>, rs: seq<Demande>): seq<Cle> {
    ClesEdt(edt) + ClesReservations(rs)
  }

  /** The loop of `salle_disponible`: true unless some record matches. */
  function Libre(occ: seq<Cle>, k: Cle): bool {
    if |occ| == 0 then true
    else if occ[0] == k then false
    else Libre(occ[1..], k)
  }

  /** `salle_disponible(salle, jour, debut)`. */
  function SalleDisponible(edt: seq<E.Entree>, rs: seq<Demande>, salle: string, jour: string, debut: string): bool {
    Libre(Occupations(edt, rs), Cle(salle, jour, debut))
  }

  lemma {:induction false} LibreMeaning(occ: seq<Cle>, k: Cle)
    ensures Libre(occ, k) <==> k !in occ
  {
    if |occ| > 0 {
      LibreMeaning(occ[1..], k);
      assert occ == [occ[0]] + occ[1..];
    }
  }

  lemma DansClesEdt(edt: seq<E.Entree>, k: Cle)
    ensures k in ClesEdt(edt) <==> exists i :: 0 <= i < |edt| && CleEntree(edt[i]) == k
  {
    var c := ClesEdt(edt);
    if k in c {
      var i :| 0 <= i < |c| && c[i] == k;
    }
    if exists i :: 0 <= i < |edt| && CleEntree(edt[i]) == k {
      var i :| 0 <= i < |edt| && CleEntree(edt[i]) == k;
      assert c[i] == k;
    }
  }

  lemma DansClesReservations(rs: seq<Demande>, k: Cle)
    ensures k in ClesReservations(rs) <==> exists j :: 0 <= j < |rs| && CleDemande(rs[j]) == k
  {
    var c := ClesReservations(rs);
    if k in c {
      var j :| 0 <= j < |c| && c[j] == k;
    }
    if exists j :: 0 <= j < |rs| && CleDemande(rs[j]) == k {
      var j :| 0 <= j < |rs| && CleDemande(rs[j]) == k;
      assert c[j] == k;
    }
  }

  /** The room is unavailable exactly when a timetable entry or a stored
      reservation names the same room, day and start, compared as texts. */
  lemma SalleDisponibleMeaning(edt: seq<E.Entree>, rs: seq<Demande>, salle: string, jour: string, debut: string)
    ensures !SalleDisponible(edt, rs, salle, jour, debut) <==>
      (exists i :: 0 <= i < |edt| && edt[i].salle == salle && edt[i].jour == jour && edt[i].debut == debut) ||
      (exists j :: 0 <= j < |rs| && rs[j].salle == salle && rs[j].jour == jour && rs[j].debut == debut)
  {
    var k := Cle(salle, jour, debut);
    LibreMeaning(Occupations(edt, rs), k);
    DansClesEdt(edt, k);
    DansClesReservations(rs, k);
  }

  /** The availability loop as written, returning at the first match. */
  method SalleDisponibleBoucle(edt: seq<E.Entree>, rs: seq<Demande>, salle: string, jour: string, debut: string)
    returns (r: bool)
    ensures r == SalleDisponible(edt, rs, salle, jour, debut)
  {
    r := LibreBoucle(Occupations(edt, rs), Cle(salle, jour, debut));
  }

  /** The loop body over the records already gathered. */
  method LibreBoucle(occ: seq<Cle>, k: Cle) returns (r: bool)
    ensures r == Libre(occ, k)
  {
    LibreMeaning(occ, k);
    var i := 0;
    while i < |occ|
      invariant 0 <= i <= |occ|
      invariant forall j :: 0 <= j < i ==> occ[j] != k
    {
      if occ[i] == k {
        return false;
      }
      i := i + 1;
    }
    return true;
  }

  /** `ajouter_reservation(reservation)`: the answer and the reservations
      file afterwards; the timetable is only read. */
  function AjouterReservation(edt: seq<E.Entree>, rs: seq<Demande>, d: Demande): (bool, seq<Demande>) {
    if SalleDisponible(edt, rs, d.salle, d.jour, d.debut) then (true, rs + [d]) else (false, rs)
  }

  /** A request is accepted exactly when no timetable entry and no stored
      reservation has its room, day and start; an accepted request is
      appended, as is, at the end; a refused one leaves the reservations as
      they were. */
  lemma AjouterReservationEffet(edt: seq<E.Entree>, rs: seq<Demande>, d: Demande)
    ensures var (ok, rs2) := AjouterReservation(edt, rs, d);
      && (ok <==>
            !(exists i :: 0 <= i < |edt| && edt[i].salle == d.salle && edt[i].jour == d.jour && edt[i].debut == d.debut) &&
            !(exists j :: 0 <= j < |rs| && rs[j].salle == d.salle && rs[j].jour == d.jour && rs[j].debut == d.debut))
      && (ok ==> rs2 == rs + [d])
      && (!ok ==> rs2 == rs)
  {
    SalleDisponibleMeaning(edt, rs, d.salle, d.jour, d.debut);
  }

  /** Once a request is accepted, the same room, day and start are taken, so
      an identical second request is refused and changes nothing. */
  lemma SecondeDemandeRefusee(edt: seq<E.Entree>, rs: seq<Demande>, d: Demande, d2: Demande)
    requires AjouterReservation(edt, rs, d).0
    requires CleDemande(d2) == CleDemande(d)
    ensures !SalleDisponible(edt, AjouterReservation(edt, rs, d).1, d.salle, d.jour, d.debut)
    ensures AjouterReservation(edt, AjouterReservation(edt, rs, d).1, d2) == (false, AjouterReservation(edt, rs, d).1)
  {
    var rs2 := rs + [d];
    SalleDisponibleMeaning(edt, rs2, d.salle, d.jour, d.debut);
    assert rs2[|rs|] == d;
  }

  /** Only equal start texts clash: a stored reservation with another start
      never makes a room unavailable, even when the two windows overlap in
      time. */
  lemma AutreDebutNeBloquePas(edt: seq<E.Entree>, rs: seq<Demande>, d: Demande, salle: string, jour: string, debut: string)
    requires debut != d.debut
    ensures SalleDisponible(edt, rs + [d], salle, jour, debut) == SalleDisponible(edt, rs, salle, jour, debut)
  {
    SalleDisponibleMeaning(edt, rs + [d], salle, jour, debut);
    SalleDisponibleMeaning(edt, rs, salle, jour, debut);
    if exists j :: 0 <= j < |rs| && rs[j].salle == salle && rs[j].jour == jour && rs[j].debut == debut {
      var j :| 0 <= j < |rs| && rs[j].salle == salle && rs[j].jour == jour && rs[j].debut == debut;
      assert (rs + [d])[j] == rs[j];
    }
    if exists j :: 0 <= j < |rs + [d]| && (rs + [d])[j].salle == salle && (rs + [d])[j].jour == jour && (rs + [d])[j].debut == debut {
      var j :| 0 <= j < |rs + [d]| && (rs + [d])[j].salle == salle && (rs + [d])[j].jour == jour && (rs + [d])[j].debut == debut;
      assert j < |rs| && rs[j] == (rs + [d])[j];
    }
  }

  /** A room the generated timetable uses at a day and start can never be
      reserved there. */
  lemma EdtBloque(edt: seq<E.Entree>, rs: seq<Demande>, d: Demande, i: nat)
    requires i < |edt| && CleEntree(edt[i]) == CleDemande(d)
    ensures AjouterReservation(edt, rs, d) == (false, rs)
  {
    SalleDisponibleMeaning(edt, rs, d.salle, d.jour, d.debut);
  }
}
