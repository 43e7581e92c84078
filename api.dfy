/** The shape of the JSON requests the client sends (`apiRequest(method, url, data)`). */
module Api {
  import opened Options

  datatype Verb = Put | Post

  /** An API request: verb, path and the JSON body. */
  datatype Request<B> = Request(verb: Verb, path: string, body: B)

  /** The id a request path names after `collection + "/"`, if any. */
  function PathId(collection: string, path: string): Option<string> {
    if |path| > |collection| + 1 && path[..|collection| + 1] == collection + "/" then Some(path[|collection| + 1..])
    else None
  }

  /** A request to `collection + "/" + id` names `id`; the collection path names none. */
  lemma PathIdOfItem(collection: string, id: string)
    requires id != ""
    ensures PathId(collection, collection + "/" + id) == Some(id)
    ensures PathId(collection, collection).None?
  {
    var p := collection + "/" + id;
    assert p[..|collection| + 1] == collection + "/";
    assert p[|collection| + 1..] == id;
  }
}
