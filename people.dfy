/** The person route (server/routes/people.js): the record of one person
    with a role per film, behind the bearer-token check. */
module People {
  import opened Js
  import opened Strings
  import opened Pipeline
  import opened Movies

  const PersonMap: SelectMap := [
    ("names.nconst", "id"), ("primaryName", "name"), ("birthYear", "birthYear"), ("deathYear", "deathYear"),
    ("primaryTitle", "movieName"), ("basics.tconst", "movieId"), ("category", "category"),
    ("characters", "characters"), ("imdbRating", "imdbRating")]

  /** The person query selects one "column as alias" per `PERSON_MAP` key, in
      order, each reading back as its column and alias. */
  lemma PersonSelectList()
    ensures |SelectQueryFromMap(PersonMap)| == 9
    ensures SelectQueryFromMap(PersonMap)[0] == "names.nconst as id"
    ensures forall i :: 0 <= i < 9 ==> Split(SelectQueryFromMap(PersonMap)[i], ' ') == [PersonMap[i].0, "as", PersonMap[i].1]
  {
    forall i | 0 <= i < 9 ensures Split(SelectQueryFromMap(PersonMap)[i], ' ') == [PersonMap[i].0, "as", PersonMap[i].1] {
      PersonMapHasNoSpaces(i);
      SelectFieldsReadBack(PersonMap, i);
    }
  }

  lemma PersonMapHasNoSpaces(i: nat)
    requires i < 9
    ensures ' ' !in PersonMap[i].0 && ' ' !in PersonMap[i].1
  {
    var (column, alias) := PersonMap[i];
    if i == 0 { assert column == "names.nconst" && alias == "id"; }
    else if i == 1 { assert column == "primaryName" && alias == "name"; }
    else if i == 2 { assert column == "birthYear" && alias == "birthYear"; }
    else if i == 3 { assert column == "deathYear" && alias == "deathYear"; }
    else if i == 4 { assert column == "primaryTitle" && alias == "movieName"; }
    else if i == 5 { assert column == "basics.tconst" && alias == "movieId"; }
    else if i == 6 { assert column == "category" && alias == "category"; }
    else if i == 7 { assert column == "characters" && alias == "characters"; }
    else { assert column == "imdbRating" && alias == "imdbRating"; }
  }

  const NoPerson := PlainError("No record exists of a person with this ID")

  /** A person's record. */
  datatype Person = Person(name: Value, birthYear: Value, deathYear: Value, roles: seq<Value>)

  datatype PersonOutcome = Found(person: Person) | PersonThrows(thrown: Value)

  /** One role `{movieName, movieId, category, characters, imdbRating}`. */
  function Role(row: Value): (r: Outcome)
    ensures r.Returns? <==> Field(row, "characters").Str?
    ensures r.Returns? ==> (Field(r.value, "movieName") == Field(row, "movieName")
      && Field(r.value, "movieId") == Field(row, "movieId")
      && Field(r.value, "category") == Field(row, "category")
      && Field(r.value, "imdbRating") == Field(row, "imdbRating")
      && Field(r.value, "characters") == Arr(Texts(Split(Field(row, "characters").s, ','))))
  {
    match SplitValue(Field(row, "characters"))
    case Throws(e) => Throws(e)
    case Returns(characters) =>
      Returns(Obj(map["movieName" := Field(row, "movieName"), "movieId" := Field(row, "movieId"),
                      "category" := Field(row, "category"), "characters" := characters,
                      "imdbRating" := Field(row, "imdbRating")]))
  }

  /** `getPersonData` on the selected rows. */
  function PersonData(raw: seq<Row>): (r: PersonOutcome)
    ensures |raw| == 0 ==> r == PersonThrows(NoPerson)
    ensures r.Found? <==> (|raw| > 0 && forall i :: 0 <= i < |raw| ==> Field(Obj(raw[i]), "characters").Str?)
  {
    if |raw| == 0 then PersonThrows(NoPerson)
    else
      var first := Obj(raw[0]);
      var roles := MapObjects(raw, Role);
      if roles.Throws? then PersonThrows(roles.thrown)
      else Found(Person(Field(first, "name"), Field(first, "birthYear"), Field(first, "deathYear"), roles.value.items))
  }

  /** A found person: name and years from the first row, and one role per
      row in row order, its characters split on ",". */
  lemma {:induction false} PersonDataShape(raw: seq<Row>)
    requires PersonData(raw).Found?
    ensures var p := PersonData(raw).person; var first := Obj(raw[0]);
      && p.name == Field(first, "name") && p.birthYear == Field(first, "birthYear")
      && p.deathYear == Field(first, "deathYear")
      && |p.roles| == |raw|
      && forall i :: 0 <= i < |raw| ==>
           var row := Obj(raw[i]);
           && Field(p.roles[i], "movieName") == Field(row, "movieName")
           && Field(p.roles[i], "characters") == Arr(Texts(Split(Field(row, "characters").s, ',')))
  {
    var roles := MapObjects(raw, Role);
    assert roles.Returns?;
    assert PersonData(raw).person.roles == roles.value.items;
  }

  /** The record as the JSON object the route sends. */
  function PersonJson(p: Person): (v: Value)
    ensures Field(v, "name") == p.name && Field(v, "birthYear") == p.birthYear
    ensures Field(v, "deathYear") == p.deathYear && Field(v, "roles") == Arr(p.roles)
  {
    Obj(map["name" := p.name, "birthYear" := p.birthYear, "deathYear" := p.deathYear, "roles" := Arr(p.roles)])
  }

  /** The joined names/principals/basics rows of one person, selected
      through `PERSON_MAP`. */
  function PersonRows(joined: seq<Row>, id: Value): (raw: seq<Row>)
    ensures |raw| == |WhereEquals(joined, "names.nconst", id)|
    ensures forall i :: 0 <= i < |raw| ==> raw[i] == Project(PersonMap, WhereEquals(joined, "names.nconst", id)[i])
  {
    var rows := WhereEquals(joined, "names.nconst", id);
    seq(|rows|, i requires 0 <= i < |rows| => Project(PersonMap, rows[i]))
  }

  /** The answer of the `/:id` handler: the record, or 400 with the message of
      whatever the lookup threw. */
  function PersonAnswer(joined: seq<Row>, id: Value): (reply: Reply)
    ensures reply.Respond?
    ensures WhereEquals(joined, "names.nconst", id) == [] ==>
      reply == Respond(Num(400), ErrorBody(Str("No record exists of a person with this ID")))
    ensures reply.status == Num(400) <==> PersonData(PersonRows(joined, id)).PersonThrows?
    ensures PersonData(PersonRows(joined, id)).Found? ==>
      reply == Respond(Num(200), PersonJson(PersonData(PersonRows(joined, id)).person))
    ensures PersonData(PersonRows(joined, id)).PersonThrows? ==>
      reply.body == ErrorBody(Field(PersonData(PersonRows(joined, id)).thrown, "message"))
  {
    match PersonData(PersonRows(joined, id))
    case Found(p) => Respond(Num(200), PersonJson(p))
    case PersonThrows(e) => Respond(Num(400), ErrorBody(Field(e, "message")))
  }

  /** `router.get("/:id", authorization, handler)`: the authorization stage
      runs, but the handler never reads `req.error`, so the answer is the
      same whatever the token. */
  method PersonRoute(req: Request, verify: string -> Verdict, joined: seq<Row>) returns (reply: Reply)
    modifies req`error, req`nextCalls
    ensures reply == PersonAnswer(joined, Field(Field(req.incoming, "params"), "id"))
    ensures req.error == AuthorizationError(old(req.error), req.headers, verify)
    ensures req.nextCalls == old(req.nextCalls) + 1
  {
    var _ := req.Authorize(verify);
    var id := Field(Field(req.incoming, "params"), "id");
    reply := PersonAnswer(joined, id);
  }
}
