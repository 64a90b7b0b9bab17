/**
 * The request checks of `POST /services`, `PUT /services/:id` and their
 * `/prices` twins, and the payload each passes on to Firestore's `set`.
 */
module Validation {
  import opened Wrappers
  import opened Api

  /** `req.body`: absent, or a JSON object. */
  datatype Body = NoBody | Body(fields: Record)

  /** The document write a valid request leads to. */
  datatype Write = Write(docId: Field, payload: Record, merge: bool)

  /** `!data || !data.id`. */
  predicate MissesId(body: Body)
  {
    body.NoBody? || !Truthy(FieldOf(body.fields, "id"))
  }

  /** `!data || Object.keys(data).length === 0`. */
  predicate MissesData(body: Body)
  {
    body.NoBody? || |body.fields| == 0
  }

  /** `POST /services` and `POST /prices` up to the `set` call. */
  function Create(c: Collection, body: Body): (r: Result<Write, ApiError>)
    ensures r.Failure? <==> MissesId(body)
    ensures r.Failure? ==> r.error == ApiError(400, "Missing " + Noun(c) + " data or id")
    ensures r.Success? ==> r.value.docId == body.fields["id"] && Truthy(r.value.docId) && !r.value.merge
    ensures r.Success? ==> r.value.payload.Keys == body.fields.Keys + {"createdAt", "updatedAt"}
    ensures r.Success? ==> r.value.payload["createdAt"] == ServerTimestamp && r.value.payload["updatedAt"] == ServerTimestamp
    ensures r.Success? ==> forall k :: k in body.fields && k != "createdAt" && k != "updatedAt" ==> r.value.payload[k] == body.fields[k]
  {
    if MissesId(body) then
      Failure(ApiError(400, "Missing " + Noun(c) + " data or id"))
    else
      var payload := body.fields["createdAt" := ServerTimestamp]["updatedAt" := ServerTimestamp];
      Success(Write(body.fields["id"], payload, false))
  }

  /** `PUT /services/:id` and `PUT /prices/:id` up to the `set` call. */
  function Update(c: Collection, docId: string, body: Body): (r: Result<Write, ApiError>)
    ensures r.Failure? <==> docId == "" || MissesData(body)
    ensures docId == "" ==> r == Failure(ApiError(400, "Missing " + Noun(c) + " id"))
    ensures docId != "" && MissesData(body) ==> r == Failure(ApiError(400, "Missing " + Noun(c) + " data"))
    ensures r.Success? ==> r.value.docId == Text(docId) && r.value.merge
    ensures r.Success? ==> r.value.payload.Keys == body.fields.Keys + {"id", "updatedAt"}
    ensures r.Success? ==> r.value.payload["id"] == Text(docId) && r.value.payload["updatedAt"] == ServerTimestamp
    ensures r.Success? ==> forall k :: k in body.fields && k != "id" && k != "updatedAt" ==> r.value.payload[k] == body.fields[k]
  {
    if docId == "" then
      Failure(ApiError(400, "Missing " + Noun(c) + " id"))
    else if MissesData(body) then
      Failure(ApiError(400, "Missing " + Noun(c) + " data"))
    else
      var payload := body.fields["id" := Text(docId)]["updatedAt" := ServerTimestamp];
      Success(Write(Text(docId), payload, true))
  }

  /**
   * A body the update accepts need not satisfy the create check: an update
   * may leave out `id`, since the path supplies it.
   */
  lemma UpdateWithoutId(c: Collection)
    ensures Update(c, "a", Body(map["tipo" := Text("x")])).Success?
    ensures Create(c, Body(map["tipo" := Text("x")])).Failure?
  {
  }

  /** Every body the create accepts, the update accepts too, and the id then comes from the path. */
  lemma {:induction false} CreateImpliesUpdate(c: Collection, docId: string, body: Body)
    requires docId != ""
    requires Create(c, body).Success?
    ensures Update(c, docId, body).Success?
    ensures Update(c, docId, body).value.payload["id"] == Text(docId)
  {
    assert "id" in body.fields;
  }
}
