/**
 * The values the server and the dashboard exchange. A Firestore document is
 * a map from field names to JSON-like values; only what the filters and the
 * validation look at is distinguished.
 */
module Api {

  /** One field value of a document or request body. */
  datatype Field =
    | Absent                               // `undefined`: the field is not there
    | Text(s: string)                      // a string
    | Object(members: map<string, Field>)  // a nested object such as `prices`
    | Other(truthy: bool)                  // a number, boolean, null or array
    | ServerTimestamp                      // `FieldValue.serverTimestamp()`

  /** JavaScript truthiness of a field value. */
  predicate Truthy(f: Field)
  {
    match f
    case Absent => false
    case Text(s) => s != ""
    case Object(_) => true
    case Other(t) => t
    case ServerTimestamp => true
  }

  type Record = map<string, Field>

  /** `r[name]`, `undefined` when absent. */
  function FieldOf(r: Record, name: string): Field
  {
    if name in r then r[name] else Absent
  }

  /** A fetched document: its id and its stored data. */
  datatype Doc = Doc(id: string, data: Record)

  /** `{ id: doc.id, ...doc.data() }`: a stored `id` field wins over the document id. */
  function Snapshot(d: Doc): (r: Record)
    ensures r.Keys == d.data.Keys + {"id"}
    ensures forall k :: k in d.data ==> r[k] == d.data[k]
    ensures "id" !in d.data ==> r["id"] == Text(d.id)
  {
    map["id" := Text(d.id)] + d.data
  }

  /** The two collections the server exposes. */
  datatype Collection = Services | Prices

  /** The noun the error messages use. */
  function Noun(c: Collection): string
  {
    match c
    case Services => "service"
    case Prices => "price"
  }

  datatype ApiError = ApiError(status: int, message: string)

  /** The `pagination` object of a list response. */
  datatype PageInfo = PageInfo(page: int, limit: int, total: nat, totalPages: nat, hasNext: bool, hasPrev: bool)

  datatype PageResponse<T> = PageResponse(data: seq<T>, pagination: PageInfo)
}
