/** The standalone conflict check of logic/conflict_manager.py. It walks the
    timetable from the front and returns the messages themselves as texts;
    it is shown here to agree with the placer's own check. */
module ConflictManager {
  import E = EdtGenerator

  /** The messages entry `s` contributes against candidate `x`, in the
      fixed order room, teacher, group. */
  function Contributions(s: E.Entree, x: E.Entree): seq<string> {
    if s.jour == x.jour && s.debut == x.debut then
      (if s.salle == x.salle then ["Salle occupée"] else [])
      + (if s.enseignant == x.enseignant then ["Enseignant indisponible"] else [])
      + (if s.groupe == x.groupe then ["Groupe en double"] else [])
    else []
  }

  /** `detecter_conflits(edt, seance)`, consuming the timetable front to
      back. */
  function DetecterConflits(edt: seq<E.Entree>, x: E.Entree): seq<string> {
    if |edt| == 0 then [] else Contributions(edt[0], x) + DetecterConflits(edt[1..], x)
  }

  function Messages(cs: seq<E.Conflit>): (r: seq<string>)
    ensures |r| == |cs|
    ensures forall i :: 0 <= i < |cs| ==> r[i] == E.Message(cs[i])
  {
    if |cs| == 0 then [] else Messages(cs[..|cs| - 1]) + [E.Message(cs[|cs| - 1])]
  }

  lemma MessagesConcat(a: seq<E.Conflit>, b: seq<E.Conflit>)
    ensures Messages(a + b) == Messages(a) + Messages(b)
  {
    var l, r := Messages(a + b), Messages(a) + Messages(b);
    forall i | 0 <= i < |l|
      ensures l[i] == r[i]
    {
      if i < |a| {
        assert (a + b)[i] == a[i];
      } else {
        assert (a + b)[i] == b[i - |a|];
      }
    }
  }

  lemma MessagesOptionnel(b: bool, c: E.Conflit)
    ensures Messages(if b then [c] else []) == if b then [E.Message(c)] else []
  {
    if b {
      assert Messages([c]) == Messages([]) + [E.Message(c)];
    }
  }

  /** One entry's texts are the texts of the placer's messages for it. */
  lemma ContributionsMessages(s: E.Entree, x: E.Entree)
    ensures Contributions(s, x) == Messages(E.ConflitsAvec(s, x))
  {
    if E.MemeCreneau(s, x) {
      var a: seq<E.Conflit> := if s.salle == x.salle then [E.SalleOccupee] else [];
      var b: seq<E.Conflit> := if s.enseignant == x.enseignant then [E.EnseignantIndisponible] else [];
      var c: seq<E.Conflit> := if s.groupe == x.groupe then [E.GroupeEnDouble] else [];
      assert E.ConflitsAvec(s, x) == a + b + c;
      MessagesConcat(a + b, c);
      MessagesConcat(a, b);
      MessagesOptionnel(s.salle == x.salle, E.SalleOccupee);
      MessagesOptionnel(s.enseignant == x.enseignant, E.EnseignantIndisponible);
      MessagesOptionnel(s.groupe == x.groupe, E.GroupeEnDouble);
    }
  }

  /** Appending one entry appends its contributions: the result for `edt` is
      a prefix of the result for `edt + [y]`. */
  lemma {:induction false} DetecterConflitsAppend(edt: seq<E.Entree>, y: E.Entree, x: E.Entree)
    ensures DetecterConflits(edt + [y], x) == DetecterConflits(edt, x) + Contributions(y, x)
  {
    if |edt| > 0 {
      assert (edt + [y])[1..] == edt[1..] + [y];
      DetecterConflitsAppend(edt[1..], y, x);
    }
  }

  /** The standalone check reports, as texts, exactly the messages of the
      placer's check, in the same order. */
  lemma {:induction false} AgreesWithPlacer(edt: seq<E.Entree>, x: E.Entree)
    ensures DetecterConflits(edt, x) == Messages(E.DetecterConflits(edt, x))
  {
    if |edt| > 0 {
      var n := |edt| - 1;
      AgreesWithPlacer(edt[..n], x);
      assert edt == edt[..n] + [edt[n]];
      DetecterConflitsAppend(edt[..n], edt[n], x);
      MessagesConcat(E.DetecterConflits(edt[..n], x), E.ConflitsAvec(edt[n], x));
      ContributionsMessages(edt[n], x);
      assert E.DetecterConflits(edt, x) == E.DetecterConflits(edt[..n], x) + E.ConflitsAvec(edt[n], x);
    }
  }

  /** An empty timetable yields no message; an entry at another day or
      start contributes none; messages are listed entry by entry, so the
      result for `edt` is a prefix of the result for `edt + [y]`; and there
      are at most three messages per entry. */
  lemma Properties(edt: seq<E.Entree>, y: E.Entree, x: E.Entree)
    ensures DetecterConflits([], x) == []
    ensures y.jour != x.jour || y.debut != x.debut ==>
      DetecterConflits(edt + [y], x) == DetecterConflits(edt, x)
    ensures DetecterConflits(edt, x) <= DetecterConflits(edt + [y], x)
    ensures |DetecterConflits(edt, x)| <= 3 * |edt|
  {
    DetecterConflitsAppend(edt, y, x);
    AgreesWithPlacer(edt, x);
    E.DetecterConflitsBorne(edt, x);
  }

  /** No message exactly when no entry clashes with `x`. */
  lemma VideSiSansConflit(edt: seq<E.Entree>, x: E.Entree)
    ensures DetecterConflits(edt, x) == [] <==> forall i :: 0 <= i < |edt| ==> !E.EnConflit(edt[i], x)
  {
    AgreesWithPlacer(edt, x);
    E.DetecterConflitsVide(edt, x);
  }
}
