# University timetable placer: a Dafny model

This project models the core of a university timetabling system written in
Python. Given the weekly teaching sessions (lectures, tutorials, labs) and
a room catalog, the system places each session on a day, a time window and
a room, so that no room, teacher or student group is booked twice at once.

The model covers the following parts of the source:

- the placer `logic/edt_generator.py`. This is the window tables, the
  conflict check, the first-fit room and window searches, the fallback
  search and `generer_edt`. `generer_edt` is modelled as a fold over the
  sessions plus a loop method.
- its best-fit variant `logic/optimization.py`. It scans a copy of the
  rooms sorted by capacity. Its window search is the placer's without the
  early `break`.
- the standalone conflict check `logic/conflict_manager.py`.
- the domain classes of `logic/models.py`. This is the capacity
  predicates, module counts, "HH:MM" parsing and formatting, duration,
  interval overlap and the reservation status setters.
- the two session-demand generators, `logic/seance_generator.py` and
  `generate_seances_data.py`.
- the room reservation check `logic/reservation_manager.py`.
- the JSON record store `logic/database.py`. Each operation is modelled as
  a pure function from the file's contents to the list it would write back.

Each source file is one Dafny module: `EdtGenerator`, `Optimization`,
`ConflictManager`, `Models`, `SeanceGenerator`, `SeancesData`,
`ReservationManager` and `Database`. Two shared modules support them.
`Wrappers` holds `Option` and `Result`. `Text` holds ASCII lower-casing,
substring search, `split`, and decimal printing and parsing. The Python
dictionaries become datatypes holding the fields the code reads. File
contents are passed in and returned as sequences.

Main results:

- Every timetable `generer_edt` builds is free of double bookings
  (`EdtGenerator.GenererSansConflit`).
- Each entry is a valid placement of a distinct input session
  (`EdtGenerator.GenererTrace`, `EdtGenerator.OriginesCroissantes`).
- A session that is dropped had no possible day
  (`EdtGenerator.GenererAbandons`).
- The placer's conflict guard can never fire (`EdtGenerator.GardeToujoursVide`).
- The fallback `proposer_solution` finds exactly what the day loop finds
  (`EdtGenerator.FallbackIsDayLoop`).
- The best-fit search returns the smallest suitable room, with ties going
  to the room listed first (`Optimization.TrouverSalleLibre`).

Where the code and the placement algorithm described in the program's own
report (`generate_pdf_report.py:493-507`) disagree, the model follows the
code:

- The code has no priority sort, no day-load balancing, no room kinds or
  equipment matching, no blocked slots and no list of unplaced sessions.
- `generer_edt` uses first-fit room choice. The best-fit search in
  `logic/optimization.py` is never called by it.
- The fallback does not try other room candidates. It repeats the same
  search on the same timetable.
- A session with a missing field raises a Python `KeyError`. The code has
  no validation step.

## Model

| member | source | states |
|---|---|---|
| EdtGenerator.GetCreneauxShape | logic/edt_generator.py:6-36 | Monday to Thursday get the five-window table itself. Friday has the same five minus 12:30-14:00. Any other day name, Saturday or unknown, gets the first two. Every window of every day is a Monday window. |
| EdtGenerator.TablesTexte | logic/edt_generator.py:6-12 | The five windows print as 09:00-10:30, 10:45-12:15, 12:30-14:00, 14:15-15:45 and 16:00-17:30. |
| EdtGenerator.WindowsWellFormed | logic/edt_generator.py:6-24 | Each window's texts parse back to its times and it lasts 90 minutes. The windows of a day are strictly increasing and do not overlap. Two windows of a day never share a start text, so the start identifies the window. |
| EdtGenerator.DetecterConflitsBorne | logic/edt_generator.py:40-57 | At most three messages per timetable entry. |
| EdtGenerator.DetecterConflitsSound | logic/edt_generator.py:43-55 | Each reported kind comes from an entry at the same day and start that shares the room, teacher or group it names. |
| EdtGenerator.DetecterConflitsComplete | logic/edt_generator.py:43-55 | Every entry at the same day and start that shares the room, teacher or group produces that kind of message. |
| EdtGenerator.DetecterConflitsKinds | logic/edt_generator.py:40-57 | A kind is reported if and only if some entry at the same day and start shares the matching field. |
| EdtGenerator.DetecterConflitsVide | logic/edt_generator.py:40-57 | The result is empty if and only if no entry at the same day and start shares room, teacher or group. |
| EdtGenerator.PremiereSalle | logic/edt_generator.py:61-75 | Returns `None` exactly when no room seats the demand and is free. Otherwise returns the first such room in catalog order. |
| EdtGenerator.SalleLibreMeaning | logic/edt_generator.py:61-75 | The returned name is that of a catalog room with capacity at least the demand that no entry uses at that day and start. Every room listed earlier is too small or occupied. `None` if and only if no room qualifies. |
| EdtGenerator.TrouverSalleLibre | logic/edt_generator.py:61-75 | The nested loops with `continue` and `break` compute the first-fit room. |
| EdtGenerator.PremierCreneau | logic/edt_generator.py:79-90 | The first window where no entry at that day and start has the same teacher or group. `None` exactly when there is none. |
| EdtGenerator.CreneauLibreMeaning | logic/edt_generator.py:79-90 | The returned window belongs to the day and is free for teacher and group. Every earlier window of the day is busy. `(None, None)` if and only if all windows are busy. |
| EdtGenerator.TrouverCreneauLibre | logic/edt_generator.py:79-90 | The loops with early `break` compute the earliest free window. |
| EdtGenerator.GardeToujoursVide | logic/edt_generator.py:147-151 | When a window and a room were found, the candidate entry has no conflict, so the `if not conflits` guard is always taken. |
| EdtGenerator.EssaiJoursMeaning | logic/edt_generator.py:126-151 | The day loop places nothing exactly when no day of the week has both a free window and a free room with a truthy name. Otherwise it places the entry of the first such day. |
| EdtGenerator.FallbackIsDayLoop | logic/edt_generator.py:94-111 | `proposer_solution` on the unchanged timetable returns the day loop's entry, so it never succeeds where the day loop failed. |
| EdtGenerator.EntreeDuJourValide | logic/edt_generator.py:136-145 | The entry built for a possible day copies the session's module, teacher and group. It lies at a window of that day and names a catalog room that seats the session. It clashes with no placed entry. |
| EdtGenerator.PlacerSeanceCas | logic/edt_generator.py:123-156 | One session appends the day loop's entry if there is one, and otherwise leaves the timetable unchanged. |
| EdtGenerator.PlacerSeanceInchange | logic/edt_generator.py:123-156 | A session leaves the timetable unchanged if and only if no day of the week is possible for it. |
| EdtGenerator.PlacerSeanceAjout | logic/edt_generator.py:136-156 | When a session is placed, exactly one entry is appended. Earlier entries are kept. The new entry is a valid placement and clashes with none of them. |
| EdtGenerator.AppendKeepsNoDoubleBooking | logic/edt_generator.py:147-149 | Appending an entry that clashes with no existing entry keeps the timetable free of double bookings. |
| EdtGenerator.GenererPas | logic/edt_generator.py:121-156 | Each session leaves the timetable as it was or extends it by one entry. |
| EdtGenerator.GenererSansConflit | logic/edt_generator.py:121-156 | No two entries share day and start together with the same room, teacher or group. There are at most as many entries as sessions. |
| EdtGenerator.GenererPrefixe | logic/edt_generator.py:121-156 | The timetable is only appended to: the timetable after the first `i` sessions is a prefix of the final one. |
| EdtGenerator.OriginesCroissantes | logic/edt_generator.py:123-156 | The entries correspond one to one, in order, to a strictly increasing list of session indices. |
| EdtGenerator.GenererTrace | logic/edt_generator.py:127-145 | Entry `k` is a valid placement of the session it came from. The room seats its head count and the window belongs to its day. |
| EdtGenerator.GenererSansEntree | logic/edt_generator.py:153-156 | A session without an entry left the timetable unchanged when its turn came. |
| EdtGenerator.GenererAbandons | logic/edt_generator.py:153-156 | A session without an entry had no possible day on the timetable of its turn. |
| EdtGenerator.PlacerSeanceBoucle | logic/edt_generator.py:124-156 | The day loop with its conflict guard and the fallback compute one session's placement. |
| EdtGenerator.GenererEdt | logic/edt_generator.py:115-159 | The outer loop builds the fold's timetable. The result has no double booking and at most one entry per session. |
| ConflictManager.ContributionsMessages | logic/conflict_manager.py:5-11 | One entry's messages are the placer's messages for it, as texts, in the order room, teacher, group. |
| ConflictManager.DetecterConflitsAppend | logic/conflict_manager.py:4-11 | Appending an entry to the timetable appends exactly that entry's messages. |
| ConflictManager.AgreesWithPlacer | logic/conflict_manager.py:1-13 | On every input the standalone check returns the same messages, in the same order, as the placer's `detecter_conflits`. |
| ConflictManager.Properties | logic/conflict_manager.py:1-13 | An empty timetable gives no message. An entry at another day or start adds none. The result for `edt` is a prefix of the result for `edt + [y]`. There are at most three messages per entry. |
| ConflictManager.VideSiSansConflit | logic/conflict_manager.py:1-13 | No message exactly when no entry clashes with the candidate. |
| Optimization.SameTables | logic/optimization.py:5-33 | The window tables, the day list and `get_creneaux` are identical to the placer's. |
| Optimization.InsererPermutation | logic/optimization.py:37 | Insertion adds exactly one room and keeps the multiset of rooms. |
| Optimization.InsererTrie | logic/optimization.py:37 | Inserting into a list sorted by capacity keeps it sorted. |
| Optimization.TrierCorrect | logic/optimization.py:37 | The sorted copy is ordered by capacity and is a permutation of the catalog. |
| Optimization.PremiereApresInsertion | logic/optimization.py:37-50 | Inserting a room into a sorted list changes the first suitable room exactly as the best-fit rule says. |
| Optimization.PremiereDuTriEstMeilleure | logic/optimization.py:36-52 | Scanning the stably sorted copy first-fit yields the best-fit room of the reference definition. |
| Optimization.MeilleureMeaning | logic/optimization.py:36-52 | Best fit returns `None` if and only if no room is suitable. Otherwise it returns a suitable room of least capacity, and no earlier suitable room has the same capacity. |
| Optimization.FirstFitIsPremiere | logic/optimization.py:39-50 | The scan loop over any list returns the name of its first suitable room. |
| Optimization.TrouverSalleLibre | logic/optimization.py:36-52 | Returns `None` exactly when every room is too small or occupied at that day and start. Otherwise it returns a suitable room that no other suitable room beats on capacity, with ties going to the earliest. The catalog passed in is a value and is left unchanged. |
| Optimization.RefinesFirstFit | logic/optimization.py:36-52 | Best fit finds a room exactly when the placer's first fit does, and that room is never larger. |
| Optimization.TrouverCreneauLibre | logic/optimization.py:55-64 | Without the `break`, the window search returns the same result as the placer's. |
| Models.EnumValuesRoundTrip | logic/models.py:24-38 | Looking up a session kind or a weekday by its value inverts `.value`. |
| Models.ParseHeure | logic/models.py:379-389 | A successful parse yields a time in range. |
| Models.ParsePadded | logic/models.py:379-389 | "HH:MM" built from two-digit numerals parses to that time when in range, and is refused as out of range otherwise. |
| Models.ParseFormatRoundTrip | logic/models.py:425-426 | Formatting a valid time with `%H:%M` and parsing it back gives the same time. |
| Models.FormatParseRoundTrip | logic/models.py:379-389 | A canonical "HH:MM" text parses if and only if its hour is below 24 and its minute below 60. Formatting the parsed time then gives back the text. |
| Models.ParseSansDeuxPoints | logic/models.py:380 | A text without a colon does not split into two fields and is refused. |
| Models.DureeMinutes | logic/models.py:393-397 | The duration is end minus start in minutes, which is negative for an inverted pair. |
| Models.OverlapIffCommonMinute | logic/models.py:412-413 | For non-empty intervals, the overlap test holds if and only if some minute lies in both. A shared minute always implies overlap. An empty interval may still be reported as overlapping. |
| Models.NouvelleSeance | logic/models.py:366-391 | A session is built exactly when the kind and day name enum members and both times parse. It keeps the given day, kind and week, and its start and end are the parsed times. |
| Models.ChevaucheMeaning | logic/models.py:403-413 | Two sessions of positive length clash exactly when they are on the same day, are not in two different set weeks, and share a minute. |
| Models.ChevaucheProperties | logic/models.py:403-413 | Overlap is symmetric and false across days. Back-to-back sessions never overlap. A session of positive length overlaps itself. |
| Models.SeanceTimesRoundTrip | logic/models.py:425-426 | A session's times, printed by `to_dict`, parse back to themselves. |
| Models.NouvelleReservation | logic/models.py:463-493 | A reservation is built exactly when the day names a weekday, both times parse and the status, "confirmée" when omitted, names a status. It keeps the given day and status, so it is confirmed when no status is given. Its start and end are the parsed times. |
| Models.ChevaucheSeanceMeaning | logic/models.py:511-517 | A reservation and a session of positive length clash exactly when they share the day and a minute. The session's week plays no part. |
| SeanceGenerator.FiliereMapMeaning | logic/seance_generator.py:26 | Every cohort's id is a key of the map. A cohort whose id no later cohort repeats is the one bound to it. |
| SeanceGenerator.FiliereMapKeys | logic/seance_generator.py:26 | The keys of the map are exactly the ids of the cohort list. |
| SeanceGenerator.EstDecoupeeCasse | logic/seance_generator.py:42-54 | The split decision ignores letter case in level, name and code. |
| SeanceGenerator.CeilDiv | logic/seance_generator.py:58-59 | `math.ceil(a / b)` is the least `r` with `a <= r * b`. |
| SeanceGenerator.GroupBound | logic/seance_generator.py:58-59 | With `n = ceil(e / cap) >= 1` groups, each group of `ceil(e / n)` students fits within `cap`, and the groups seat everyone. |
| SeanceGenerator.NbGroupesMeaning | logic/seance_generator.py:56-64 | A split cohort gets `ceil(e/50)` tutorial and `ceil(e/30)` lab groups. An unsplit cohort gets one of each. |
| SeanceGenerator.Groupes | logic/seance_generator.py:82-96 | One session per group `g..n`, with consecutive ids, group name `code-G{g}` when `n > 1`, and head count `ceil(e/n)`. |
| SeanceGenerator.GroupNamesDistinct | logic/seance_generator.py:83 | Group names within one kind of one module are pairwise distinct. |
| SeanceGenerator.SeancesModuleShape | logic/seance_generator.py:66-114 | A valid module emits one lecture for the whole cohort (priority 1), then one tutorial per group even with no tutorials listed (priority 2), then labs only if it lists labs (priority 3). Ids are consecutive. A split cohort's groups hold at most 50 (tutorials) and 30 (labs) students. |
| SeanceGenerator.GenererStep | logic/seance_generator.py:33-39 | A module with a missing, zero or unknown cohort id emits nothing. Any other module appends exactly its own sessions. |
| SeanceGenerator.GenererIds | logic/seance_generator.py:28-114 | Ids run 1, 2, 3, ... in emission order, so they are unique. Every session lasts 90 minutes, and its priority matches its kind. |
| SeancesData.SeancesModuleCount | generate_seances_data.py:46-102 | A module yields `[c>0] + [td>0]*ceil(e/50) + [tp>0]*ceil(e/30)` sessions with consecutive ids. |
| SeancesData.SeancesModuleShape | generate_seances_data.py:50-102 | The lecture only if lectures are listed, tutorials only if tutorials are, labs only if labs are, in that order. Groups hold at most 50 or 30 students. |
| SeancesData.AgreesWithSeanceGenerator | generate_seances_data.py:46-102 | On a split cohort with lectures and tutorials listed, the older generator emits what the newer one does. |
| SeancesData.GenererIds | generate_seances_data.py:28-102 | Ids run 1, 2, 3, ... over the whole output. |
| SeancesData.GenererStep | generate_seances_data.py:33-39 | A module with an invalid or unknown cohort id is skipped. A known one appends its own sessions. |
| ReservationManager.LibreMeaning | logic/reservation_manager.py:7-10 | The loop answers true exactly when no record has the requested room, day and start. |
| ReservationManager.SalleDisponibleMeaning | logic/reservation_manager.py:3-10 | Unavailable if and only if some timetable entry or stored reservation has equal room, day and start texts. |
| ReservationManager.SalleDisponibleBoucle | logic/reservation_manager.py:3-10 | The loop with early return computes availability. |
| ReservationManager.LibreBoucle | logic/reservation_manager.py:7-10 | Walking the gathered records and returning `False` at the first match computes `True` exactly when no record matches. |
| ReservationManager.AjouterReservationEffet | logic/reservation_manager.py:3-19 | A request is accepted if and only if no timetable entry and no stored reservation has its room, day and start. An accepted request is appended as is at the end. A refused one leaves the reservations unchanged. The timetable is never written. |
| ReservationManager.SecondeDemandeRefusee | logic/reservation_manager.py:7-18 | After an accepted request, the same room, day and start are unavailable, so an identical request is refused and changes nothing. |
| ReservationManager.AutreDebutNeBloquePas | logic/reservation_manager.py:8 | A reservation with another start never blocks a room, even when the times overlap. |
| ReservationManager.EdtBloque | logic/reservation_manager.py:7-14 | A room the timetable uses at a day and start cannot be reserved there. |
| Database.MaxMeaning | logic/database.py:95 | `max` bounds every element and is one of them. |
| Database.IdsEntiersMeaning | logic/database.py:95 | The ids `max` compares are all integers exactly when no record holds a non-integer id. A missing id counts as 0. |
| Database.NouvelIdLibre | logic/database.py:93-99 | A generated id is larger than every integer id in the file, so it is never a duplicate. |
| Database.AddDataCases | logic/database.py:88-117 | A missing file raises the generic Exception and an unreadable one a decoding error. An item without id gets max+1, or a TypeError if some id is not an integer. A taken id raises ValueError and nothing is written. Otherwise the list becomes old + [item] and the item is returned with its id. |
| Database.AddDataPreservesIds | logic/database.py:93-109 | A successful add keeps ids unique, and a lookup of the new integer id returns the added item. |
| Database.AddDataFichierAbsent | logic/database.py:111-117 | As written, adding to a missing file fails. The corrected add creates the file holding the item alone, with id 1 if it had none. |
| Database.PremierAvecIdMeaning | logic/database.py:207-211 | Finds the position of the first record carrying the id, or `None` when no record carries it. |
| Database.GetByIdMeaning | logic/database.py:193-215 | A lookup returns the first record with the id. It returns `None` exactly when the file cannot be loaded or no record has the id. `exists` holds exactly when a record has the id. |
| Database.UpdateDataMeaning | logic/database.py:135-156 | The first record with the id takes the new fields, keeps the keys the update does not mention, and keeps its id. Every other record is untouched. Without such a record the data is unchanged and the answer is `None`. Load errors become the generic Exception. |
| Database.UpdateDataPreservesIds | logic/database.py:139-150 | An update keeps ids unique, and a later lookup of the id returns the updated record. |
| Database.SansIdMeaning | logic/database.py:178 | The comprehension keeps exactly the records without the id. Its length equals the old length if and only if no record had the id. |
| Database.DeleteDataMeaning | logic/database.py:173-190 | Removes every record with the id and keeps the others. Answers true if and only if some record had it. Afterwards the id is not found. Load errors become the generic Exception. |
| Database.GarderSelection | logic/database.py:236-237 | Filtering on one criterion and then on the rest is filtering on all of them. |
| Database.FiltrerGarder | logic/database.py:235-239 | Applying the criteria in turn gives the one-pass, order-preserving selection of the records that meet them all. |
| Database.FilterDataMeaning | logic/database.py:232-243 | Keeps, in file order, exactly the records that meet every criterion, and everything when there is none. A missing or unreadable file gives `[]`. |

## Left out

- File I/O is left out: `charger_json`, `sauvegarder_json`, `load_json`, `save_json`, `open` and `os.makedirs`. Inputs are sequences and outputs are returned. `charger_json` and `sauvegarder_json` are imported by `logic/edt_generator.py` and `logic/reservation_manager.py` but defined nowhere in the source, so they are treated as a plain load and store. A save that fails is not modelled.
- Console output (`print`) and the `__main__` demonstrations are left out.
- Records are modelled as datatypes holding the fields the code reads. A record missing a field read with `[...]` would raise `KeyError`. That case is not modelled.
- SeanceGenerator.Filiere, SeanceGenerator.ModuleDef and the SeancesData generator model an optional field as absent or present with a value. A field present with JSON `null` is not modelled. In Python `.get(k, default)` then returns `None`, not the default. A null `niveau`, `nom` or `code` raises `AttributeError` on `.lower()` (logic/seance_generator.py:41-53). A null `effectif` or `nb_seances_*` raises `TypeError` (logic/seance_generator.py:58-99, generate_seances_data.py:45-87). A null `enseignant` puts `None` into the session instead of "Inconnu". The model instead applies the default. A null `filiere_id` is skipped, as in the model.
- `proposer_solution` updates the session dictionary in place and the fallback appends that dictionary, extra keys included. The model appends the same seven fields the day loop writes. The fallback never succeeds anyway (`EdtGenerator.FallbackIsDayLoop`).
- Models.ParseInt: Python's `int()` also accepts surrounding whitespace, underscores between digits and non-ASCII digits. The model accepts an optional sign followed by ASCII digits.
- Text.Lower: `str.lower()` is modelled on ASCII letters only. Unicode case folding is left out, as is `Salle.a_equipement`, which relies on it.
- SeanceGenerator.CeilDiv: `math.ceil(e / n)` goes through a float. The model uses the exact ceiling, which differs only above 2^53.
- Database: JSON values are modelled as integers, texts and null. Python's cross-type equalities (`True == 1`, `1 == 1.0`) are left out. A file whose top level is not a list is left out.
- `count_items` and `get_all` in `logic/database.py` are left out. They are thin wrappers around loading the file.
- `Reservation.date_creation` and `datetime.now()` are left out because they read the clock. `Reservation` and `Seance` keep the other fields.
- `duree_heures`, `to_dict`, `from_dict`, `__str__` and the other accessors of `logic/models.py` are left out. They are formatting and field access with no logic.
- Models.DureeMinutes: `total_seconds() / 60` is a float divided and truncated. The model computes it with exact integers, which agree because the difference is a whole number of minutes. The source also reads `datetime.today()` once per time. If the date changes between the two reads, the source returns 1440 minutes more than the model. The model assumes one date.

## Findings

| source | as written | input that shows it | evidently intended | confidence | as-written member | corrected member |
|---|---|---|---|---|---|---|
| logic/database.py:111-117 | `load_json` turns `FileNotFoundError` into a plain `Exception`, so the `except FileNotFoundError` branch of `add_data` is never reached. | `add_data` on a file that does not exist raises an exception. The module's own first demonstration call does exactly this. | Create the file holding the item alone, with id 1 if it had none. | high; not executed | Database.AddData (shown by Database.AddDataFichierAbsent) | Database.AddDataCorrige (proved in Database.AddDataFichierAbsent) |
