/** The hotel resource (Controllers/HotelsController.cs, Models/Hotel.cs) over a
    table from id to record. The database's key generation and its duplicate-key
    failure are the only store behaviours modelled. */
module Hotels {
  import opened Http

  /** A hotel record, field for field. */
  datatype Hotel = Hotel(
    id: int,
    name: string,
    address: string,
    pays: string,
    city: string,
    phone: string,
    stars: int,
    points: int)

  /** The hotel table, keyed by primary key. */
  type Table = map<int, Hotel>

  /** Every record is stored under its own Id. */
  predicate WellKeyed(t: Table)
  {
    forall k :: k in t ==> t[k].id == k
  }

  /** Lists every hotel; nothing changes. */
  function GetAll(t: Table): (r: Step<Response<set<Hotel>>, Table>)
    ensures r.state == t && r.response.Ok?
    ensures forall k :: k in t ==> t[k] in r.response.body
    ensures WellKeyed(t) ==> forall h :: h in r.response.body ==> h.id in t && t[h.id] == h
  {
    Step(Ok(set k | k in t :: t[k]), t)
  }

  /** The hotel whose Id is `id`, or "Invalid Id"; nothing changes. */
  function Get(t: Table, id: int): (r: Step<Response<Hotel>, Table>)
    ensures r.state == t
    ensures r.response.Ok? || r.response == BadRequest("Invalid Id")
    ensures WellKeyed(t) ==> (r.response.Ok? <==> exists k :: k in t && t[k].id == id)
    ensures WellKeyed(t) && r.response.Ok? ==> r.response.body.id == id && id in t && t[id] == r.response.body
  {
    if id in t then Step(Ok(t[id]), t)
    else Step(BadRequest("Invalid Id"), t)
  }

  /** The key the new row is stored under: a client-supplied non-zero Id, or the
      value the database generates when the Id is left at its default of zero. */
  function StoredKey(hotel: Hotel, generated: int): int
  {
    if hotel.id == 0 then generated else hotel.id
  }

  /** Post: adds the hotel under its key and answers with the stored record; a
      key already in use makes the save fail and changes nothing. */
  function Post(t: Table, hotel: Hotel, generated: int): (r: Step<Response<Hotel>, Table>)
    ensures var k := StoredKey(hotel, generated);
            k in t ==> r == Step(ServerError, t)
    ensures var k := StoredKey(hotel, generated);
            k !in t ==>
              && r.response == Created(hotel.(id := k))
              && r.state.Keys == t.Keys + {k}
              && r.state[k] == hotel.(id := k)
    ensures forall k :: k in t ==> k in r.state && r.state[k] == t[k]
  {
    var k := StoredKey(hotel, generated);
    if k in t then Step(ServerError, t)
    else Step(Created(hotel.(id := k)), t[k := hotel.(id := k)])
  }

  /** Patch: "Invalid Id" when absent; otherwise only that hotel's Name changes. */
  function Patch(t: Table, id: int, name: string): (r: Step<Response<()>, Table>)
    ensures id !in t ==> r == Step(BadRequest("Invalid Id"), t)
    ensures id in t ==>
              && r.response == NoContent
              && r.state.Keys == t.Keys
              && r.state[id] == t[id].(name := name)
              && forall k :: k in t && k != id ==> r.state[k] == t[k]
  {
    if id !in t then Step(BadRequest("Invalid Id"), t)
    else Step(NoContent, t[id := t[id].(name := name)])
  }

  /** Delete: "Invalid Id" when absent; otherwise exactly that hotel goes. */
  function Delete(t: Table, id: int): (r: Step<Response<()>, Table>)
    ensures id !in t ==> r == Step(BadRequest("Invalid Id"), t)
    ensures id in t ==>
              && r.response == NoContent
              && r.state.Keys == t.Keys - {id}
              && forall k :: k in r.state ==> r.state[k] == t[k]
  {
    if id !in t then Step(BadRequest("Invalid Id"), t)
    else Step(NoContent, t - {id})
  }

  /** Every operation keeps each record stored under its own Id. */
  lemma OperationsKeepWellKeyed(t: Table, hotel: Hotel, generated: int, id: int, name: string)
    requires WellKeyed(t)
    ensures WellKeyed(Post(t, hotel, generated).state)
    ensures WellKeyed(Patch(t, id, name).state)
    ensures WellKeyed(Delete(t, id).state)
  {
  }

  /** A successful Post is retrievable by its Id as the stored record. */
  lemma PostThenGet(t: Table, hotel: Hotel, generated: int)
    requires WellKeyed(t)
    requires Post(t, hotel, generated).response.Created?
    ensures var r := Post(t, hotel, generated);
            WellKeyed(r.state) && Get(r.state, r.response.body.id).response == Ok(r.response.body)
  {
  }

  /** After a Patch of an existing hotel, Get returns it with the new Name and
      every other field as before. */
  lemma PatchThenGet(t: Table, id: int, name: string)
    requires WellKeyed(t)
    requires id in t
    ensures var t' := Patch(t, id, name).state;
            WellKeyed(t') &&
            var h := Get(t', id).response.body;
            && Get(t', id).response.Ok?
            && h.name == name
            && h.id == t[id].id && h.address == t[id].address && h.pays == t[id].pays
            && h.city == t[id].city && h.phone == t[id].phone
            && h.stars == t[id].stars && h.points == t[id].points
  {
  }

  /** Patching twice with the same name is the same as patching once. */
  lemma PatchIdempotent(t: Table, id: int, name: string)
    ensures var once := Patch(t, id, name);
            Patch(once.state, id, name) == once
  {
    if id in t {
      var t1 := Patch(t, id, name).state;
      assert t1[id := t1[id].(name := name)] == t1;
    }
  }

  /** After a successful Delete the Id is no longer retrievable. */
  lemma DeleteThenGet(t: Table, id: int)
    requires WellKeyed(t)
    requires Delete(t, id).response == NoContent
    ensures WellKeyed(Delete(t, id).state)
    ensures Get(Delete(t, id).state, id).response == BadRequest("Invalid Id")
  {
  }
}
