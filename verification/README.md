# Patient records service — Dafny model

A model of the record rules of a small FastAPI service that keeps patient
records in one JSON document keyed by patient id. It covers:

- the patient record: its field constraints (age strictly between 0 and
  120, gender one of male/female/other, height and weight positive; name
  and city unconstrained), and the derived `bmi` (weight over height
  squared, rounded to hundredths) and `verdict` fields;
- the partial update body, in which every field is optional and only the
  present fields are constrained;
- the store operations over the document as a `map<string, Entry>` value:
  get by id, create, update (merge, full revalidation, fresh bmi and
  verdict) and delete, each with its success case and its error case;
- the sort query: argument checks, then a stable sort of the stored
  entries by height, weight or bmi, ascending or descending, a missing key
  reading as 0.

Modules, one per concern:

| file | module | contents |
|---|---|---|
| `wrappers.dfy` | `Wrappers` | `Option`, `Result`, `Outcome` |
| `errors.dfy` | `Errors` | the error kinds: invalid body (with the offending field names), a stored record failing revalidation (a server error in the service), not found, conflict, bad query argument |
| `patients.dfy` | `Patients` | `Patient`, `Entry` (stored form), `Fields` (request bodies), validation, `Bmi`, `Verdict`, the update merge |
| `store.dfy` | `Store` | `Get`, `Create`, `Update`, `Delete` and lemmas about them in sequence |
| `sorting.dfy` | `Sorting` | the sort query, a stable insertion sort, and its sortedness, permutation and stability proofs |

Modelling choices:

- The stored value `Entry` has every field optional, because it is read
  from a document that may have been edited by hand; this is what makes
  "a missing sort key reads as 0" meaningful. `WellFormed` names the
  entries the service itself writes, and `StoreValid` (every entry well
  formed) is preserved by create, update and delete.
- Request bodies are validated before the handler looks at the store, as
  the web framework does. So an invalid create body is reported even when
  the id is taken, and an invalid update body even when the id is absent.
- A changing operation returns a `Reply`: the store it would save and its
  outcome. On every error the returned store is the input store, which is
  how the model states that nothing is saved.
- A validation error carries the set of offending field names, since the
  validation library reports every failing field at once.
- `bmi` is computed on exact reals: the exact quotient, then rounding to
  hundredths with halfway cases going to the even hundredth (Python's
  `round`). Binary floating point is not modelled.
- The verdict bands are kept exactly as the code writes them. The band
  24.9 <= bmi < 25 matches neither "Normal weight" nor "Overweight" and
  falls through to "Obesity". `GapBreaksMonotonicity` shows a 2 m, 99.8 kg
  patient (bmi 24.95) labelled "Obesity" while a 100 kg one (bmi 25) is
  labelled "Overweight". `VerdictMonotoneOutsideGap` shows the bands are
  ordered everywhere else.
- A map has no order, but the sort is stable: entries with equal keys keep
  the document's order, and Python's `reverse=True` keeps that in the
  descending direction too. The document's id order is therefore a
  parameter `keys` of `SortPatients`, required to list each stored id
  exactly once.

Name and city carry no length constraint (main.py:12-13), so empty
strings are accepted for both.

## Model

| member | source | states |
|---|---|---|
| `Patients.Construct` | main.py:10-17 | a full field set is accepted exactly when every field is present, 0 < age < 120, gender is male/female/other and height and weight are positive; the patient then carries the given values, and otherwise the error names each missing or out-of-range field and no other |
| `Patients.Round2` | main.py:22 | the result is a whole number of hundredths within half a hundredth of the input, and halfway cases go to the even hundredth |
| `Patients.Bmi` | main.py:19-22 | bmi is a whole number of hundredths within half a hundredth of weight / height², and a quotient exactly halfway between two hundredths goes to the even one |
| `Patients.Verdict` | main.py:24-34 | Underweight exactly when bmi < 18.5; Normal weight exactly when 18.5 <= bmi < 24.9; Overweight exactly when 25 <= bmi < 29.9; Obesity exactly for 24.9 <= bmi < 25 or bmi >= 29.9 |
| `Patients.VerdictMonotoneOutsideGap` | main.py:26-34 | away from the band [24.9, 25), a larger bmi never gets a milder verdict |
| `Patients.GapBreaksMonotonicity` | main.py:19-34 | a 2 m, 99.8 kg patient has bmi 24.95 and is labelled Obesity, while a 2 m, 100 kg patient has bmi 25 and is labelled Overweight |
| `Patients.Dump` | main.py:96 | the stored form of a valid patient is well formed (fields present and valid, bmi and verdict derived from height and weight), and validating it again gives back the same patient |
| `Patients.DumpConstructRoundTrip` | main.py:115-118 | revalidating and re-dumping a well-formed stored entry reproduces it exactly |
| `Patients.CheckUpdate` | main.py:36-42 | an update body is accepted exactly when each PRESENT field meets its constraint (absent fields are not checked, name and city never fail); a rejection names exactly the present fields that break their constraint |
| `Patients.EmptyUpdateChecks` | main.py:36-42 | an update body with no fields is accepted |
| `Patients.Overlay` | main.py:110-113 | each field present in the update replaces the stored value and each absent field keeps the stored value |
| `Patients.OverlayEmpty` | main.py:110-113 | merging an empty update changes nothing |
| `Patients.OverlayIdempotent` | main.py:110-113 | merging the same update twice equals merging it once |
| `Patients.OverlayCompose` | main.py:110-113 | two successive merges equal one merge of the combined update, the later value winning |
| `Patients.MergeRevalidates` | main.py:110-116 | an accepted update merged into a valid complete record always passes the full revalidation |
| `Store.Get` | main.py:65-67 | a present id yields exactly the stored entry; an absent id fails with not found |
| `Store.Create` | main.py:93-98 | an invalid body fails with exactly the error its validation reports; a valid body under a taken id fails with conflict; on any failure the store is unchanged; on success the keys grow by exactly the id, the new entry is well formed and holds the body's fields, every other entry is untouched, and a valid store stays valid |
| `Store.Update` | main.py:105-121 | an invalid body fails first; an absent id fails with not found; a merged record that fails revalidation is not stored and gives a revalidation error (the program's unhandled validation error inside the handler, not a rejected body) naming the offending fields; on any failure the store is unchanged; on success the key set is the same, only the id's entry changes and it is well formed; on a valid store an accepted body for a present id always succeeds, and validity is preserved |
| `Store.UpdateMergesFields` | main.py:110-120 | after a successful update every field the update leaves out has its old stored value, every field it carries has the new value, and bmi and verdict are recomputed from the merged height and weight |
| `Store.Delete` | main.py:130-134 | an absent id fails with not found and leaves the store unchanged; otherwise exactly that key is removed, every other entry is untouched, and a valid store stays valid |
| `Store.CreateThenGet` | main.py:93-98 | reading a freshly created id returns the body's fields with bmi and verdict derived from them |
| `Store.CreateThenDelete` | main.py:96-98 | deleting a freshly created id restores the original store |
| `Store.DeleteThenCreate` | main.py:130-134 | after deleting an id it is not found, and a valid create under it succeeds |
| `Store.EmptyUpdateIsNoOp` | main.py:105-121 | on a valid store, an update with no fields succeeds and stores exactly what was there |
| `Store.UpdateIdempotent` | main.py:105-121 | repeating a successful update succeeds and leaves the same store |
| `Sorting.ParseField` | main.py:74-77 | the sort field is accepted exactly when it is height, weight or bmi |
| `Sorting.ParseOrder` | main.py:79-83 | the order is accepted exactly when it is asc or desc, and desc selects the reverse direction |
| `Sorting.Key` | main.py:85 | the sort key of an entry is its height, weight or bmi as requested, or 0 when the entry has no such field |
| `Sorting.Insert` | main.py:85 | inserting into a sorted sequence yields a sorted permutation of the entry plus the sequence |
| `Sorting.InsertStable` | main.py:85 | insertion places the new entry ahead of every entry with an equal key, so each key's entries keep their order |
| `Sorting.SortEntries` | main.py:85 | the result is sorted by the key (missing key read as 0) in the requested direction and is a permutation of the input |
| `Sorting.SortStable` | main.py:85 | for every key value, the entries with that key appear in the same order as in the input |
| `Sorting.SortPatients` | main.py:74-85 | an unknown field fails naming sort_by; a known field with an unknown order fails naming order; otherwise the result holds every stored entry exactly once, sorted ascending for asc and descending for desc |
| `Sorting.SortPatientsStable` | main.py:83-85 | a successful sort keeps the document order among entries with equal keys, in both directions |
| `Sorting.SortHeightsAscending` | main.py:85 | heights 1.5, 1.8, 1.6 sort ascending to 1.5, 1.6, 1.8 |
| `Sorting.SortHeightsDescending` | main.py:83-85 | heights 1.5, 1.8, 1.6 sort descending to 1.8, 1.6, 1.5 |

## Left out

- Reading and writing the patients document (main.py:44-50): the store is a map value passed in and returned.
- The web layer: routing, HTTP status codes, response bodies and the welcome endpoint (main.py:52-54); errors are the `Error` datatype.
- Listing all patients (main.py:56-59): it returns the loaded document unchanged, so there is nothing to state beyond the store itself.
- `Patients.Bmi`: computed on exact reals, not on binary floating point. Beyond last-digit rounding differences, the program can fail outright where the model does not: a height so small that `height ** 2` underflows to 0 raises a division by zero, a height so large that `height ** 2` overflows raises an overflow error, and an infinite weight (accepted by the `gt=0` constraint) gives an infinite or undefined bmi. An infinite height with a finite weight gives bmi 0.0, so the record is stored with verdict "Underweight"; the model has no infinite values.
- `Store.Create`: bmi is computed while the record is dumped (main.py:96), so for the extreme heights above the program fails with a server error and saves nothing, while the model succeeds.
- `Store.Update`: the same holds at main.py:118; the model's promise that an accepted body for a present id in a valid store always succeeds does not hold for the program at those extreme heights.
- `Sorting.SortPatients`: the query default `order='asc'` (main.py:72) is not modelled; the order is passed explicitly.
- Coercion by the validation library (a numeric string accepted as an age, an integer as a height) and values of the wrong JSON type in a stored entry: every value is taken to have its declared type.
- An explicit `null` in an update body (main.py:110): it counts as present and would then fail revalidation; the model treats every `None` as an absent field.
- A create body without an `id`: the id is a plain parameter of `Store.Create`.
- `Patients.Construct`: the error carries the set of offending fields, not the library's messages or their order.
- Concurrent requests racing on the shared document (last write wins).
