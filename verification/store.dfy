/** The patients store and the four operations that read or change it by
    id. The store is the whole patients document, a map from patient id to
    stored entry, passed in and returned as a value; loading and saving the
    document are not modelled. */
module Store {
  import opened Wrappers
  import opened Errors
  import opened Patients

  type Store = map<string, Entry>

  /** What a changing operation leaves behind: the store it would save
      (the input store when it rejects the request) and its outcome. */
  datatype Reply = Reply(store: Store, outcome: Outcome<Error>)

  /** Every entry is one the service could have written itself. */
  ghost predicate StoreValid(s: Store) {
    forall id :: id in s ==> WellFormed(s[id])
  }

  /** The request body of an update, as the record would see it once the
      update has been merged into the entry stored under `id`. */
  function Merged(s: Store, id: string, u: Fields): (r: Fields)
    requires id in s
  {
    Overlay(FieldsOf(s[id]), u)
  }

  /** Reads the entry stored under `id`. */
  function Get(s: Store, id: string): (r: Result<Entry, Error>)
    ensures r.Success? <==> id in s
    ensures r.Success? ==> r.value == s[id]
    ensures r.Failure? ==> r.error == NotFound
  {
    if id in s then Success(s[id]) else Failure(NotFound)
  }

  /** Creates a patient under `id` from a full request body. The body is
      validated before the store is consulted, so an invalid body is
      reported even when the id is taken. */
  function Create(s: Store, id: string, body: Fields): (r: Reply)
    ensures r.outcome.Fail? ==> r.store == s
    ensures r.outcome.Fail? && !r.outcome.error.Invalid? ==> r.outcome.error == Conflict
    ensures Construct(body).Failure? ==> r.outcome == Fail(Construct(body).error)
    ensures r.outcome.Pass? <==> Construct(body).Success? && id !in s
    ensures r.outcome == Fail(Conflict) <==> Construct(body).Success? && id in s
    ensures r.outcome.Pass? ==>
      && r.store.Keys == s.Keys + {id}
      && WellFormed(r.store[id])
      && FieldsOf(r.store[id]) == body
      && (forall k :: k in s ==> r.store[k] == s[k])
    ensures StoreValid(s) ==> StoreValid(r.store)
  {
    match Construct(body)
    case Failure(e) => Reply(s, Fail(e))
    case Success(p) =>
      if id in s then Reply(s, Fail(Conflict))
      else Reply(s[id := Dump(p)], Pass)
  }

  /** Applies a partial update to the patient stored under `id`: the
      present fields overwrite the stored ones, the whole merged record is
      validated again, and bmi and verdict are derived afresh. */
  function Update(s: Store, id: string, u: Fields): (r: Reply)
    ensures r.outcome.Fail? ==> r.store == s
    ensures r.outcome == Fail(NotFound) <==> CheckUpdate(u).Pass? && id !in s
    ensures CheckUpdate(u).Fail? ==> r.outcome == CheckUpdate(u)
    ensures r.outcome.Pass? ==>
      && id in s
      && r.store.Keys == s.Keys
      && WellFormed(r.store[id])
      && (forall k :: k in s && k != id ==> r.store[k] == s[k])
    ensures r.outcome.Pass? <==>
      CheckUpdate(u).Pass? && id in s && Construct(Merged(s, id, u)).Success?
    ensures CheckUpdate(u).Pass? && id in s && Construct(Merged(s, id, u)).Failure? ==>
      r.outcome == Fail(Revalidation(Construct(Merged(s, id, u)).error.fields))
    ensures StoreValid(s) && id in s && CheckUpdate(u).Pass? ==> r.outcome.Pass?
    ensures StoreValid(s) ==> StoreValid(r.store)
  {
    match CheckUpdate(u)
    case Fail(e) => Reply(s, Fail(e))
    case Pass =>
      if id !in s then Reply(s, Fail(NotFound))
      else
        match Construct(Merged(s, id, u))
        case Failure(e) => Reply(s, Fail(Revalidation(e.fields)))
        case Success(p) => Reply(s[id := Dump(p)], Pass)
  }

  /** A successful update keeps every field the update leaves out, takes
      every field it carries, and recomputes bmi from the merged height
      and weight. */
  lemma UpdateMergesFields(s: Store, id: string, u: Fields)
    requires Update(s, id, u).outcome.Pass?
    ensures id in s && id in Update(s, id, u).store
    ensures var e, e' := s[id], Update(s, id, u).store[id];
      && (u.name.None? ==> e'.name == e.name) && (u.name.Some? ==> e'.name == u.name)
      && (u.city.None? ==> e'.city == e.city) && (u.city.Some? ==> e'.city == u.city)
      && (u.age.None? ==> e'.age == e.age) && (u.age.Some? ==> e'.age == u.age)
      && (u.gender.None? ==> e'.gender == e.gender) && (u.gender.Some? ==> e'.gender == u.gender)
      && (u.height.None? ==> e'.height == e.height) && (u.height.Some? ==> e'.height == u.height)
      && (u.weight.None? ==> e'.weight == e.weight) && (u.weight.Some? ==> e'.weight == u.weight)
      && e'.bmi == Some(Bmi(e'.height.value, e'.weight.value))
      && e'.verdict == Some(Verdict(Bmi(e'.height.value, e'.weight.value)))
  {
  }

  /** Deletes the patient stored under `id`. */
  function Delete(s: Store, id: string): (r: Reply)
    ensures r.outcome.Fail? ==> r.store == s && r.outcome.error == NotFound
    ensures r.outcome.Pass? <==> id in s
    ensures r.outcome.Pass? ==>
      && r.store.Keys == s.Keys - {id}
      && (forall k :: k in r.store ==> r.store[k] == s[k])
    ensures StoreValid(s) ==> StoreValid(r.store)
  {
    if id !in s then Reply(s, Fail(NotFound))
    else Reply(s - {id}, Pass)
  }

  // ---------------------------------------------------------------------------
  // Operations in sequence

  /** Reading back a freshly created patient gives the body's fields with
      bmi and verdict derived from them. */
  lemma CreateThenGet(s: Store, id: string, body: Fields)
    requires Create(s, id, body).outcome.Pass?
    ensures Get(Create(s, id, body).store, id) == Success(Dump(Construct(body).value))
    ensures var e := Get(Create(s, id, body).store, id).value;
      FieldsOf(e) == body && WellFormed(e)
  {
  }

  /** Deleting a freshly created patient restores the original store. */
  lemma CreateThenDelete(s: Store, id: string, body: Fields)
    requires Create(s, id, body).outcome.Pass?
    ensures Delete(Create(s, id, body).store, id) == Reply(s, Pass)
  {
  }

  /** After a delete the id is gone and a create under it is accepted. */
  lemma DeleteThenCreate(s: Store, id: string, body: Fields)
    requires id in s
    requires Construct(body).Success?
    ensures Get(Delete(s, id).store, id) == Failure(NotFound)
    ensures Create(Delete(s, id).store, id, body).outcome.Pass?
  {
  }

  /** An update with no fields leaves a valid store exactly as it was. */
  lemma EmptyUpdateIsNoOp(s: Store, id: string)
    requires StoreValid(s)
    requires id in s
    ensures Update(s, id, NoFields) == Reply(s, Pass)
  {
  }

  /** Repeating a successful update is accepted and stores the same thing
      again. */
  lemma UpdateIdempotent(s: Store, id: string, u: Fields)
    requires Update(s, id, u).outcome.Pass?
    ensures Update(Update(s, id, u).store, id, u) == Update(s, id, u)
  {
  }
}
