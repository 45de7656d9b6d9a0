/** Files as a map from canonical absolute paths to contents, and the documents read from them. */
module FileStores {
  import opened Common

  type Path = string

  /** A JSON value as the manifests use it. */
  datatype Value = Null | Bool(b: bool) | Text(s: string) | List(items: seq<string>)

  type Document = map<string, Value>

  /** A file holds a JSON object, or bytes that are none. */
  datatype Content = Json(doc: Document) | Raw(bytes: seq<nat>)

  type Store = map<Path, Content>

  type Hash = Content -> string

  /** The assumption on SHA-256: equal digests mean equal contents. */
  ghost predicate Injective(hash: Hash) {
    forall a, b :: hash(a) == hash(b) ==> a == b
  }

  /** Python's `document.get(field)`: null where the field is missing. */
  function Get(doc: Document, field: string): Value {
    if field in doc then doc[field] else Null
  }

  function Join(dir: Path, name: string): Path {
    dir + "/" + name
  }

  /** The path lies below the directory. */
  predicate Under(dir: Path, p: Path) {
    |p| > |dir| && p[..|dir| + 1] == dir + "/"
  }

  /** Everything before the last slash. */
  function Dirname(p: Path): Path {
    if p == [] then [] else
      var n := |p| - 1;
      if p[n] == '/' then p[..n] else Dirname(p[..n])
  }

  lemma {:induction false} DirnameJoin(dir: Path, name: string)
    requires '/' !in name
    ensures Dirname(Join(dir, name)) == dir
    decreases |name|
  {
    if name == [] {
      assert Join(dir, name)[..|dir|] == dir;
    } else {
      var n := |name| - 1;
      assert Join(dir, name)[..|Join(dir, name)| - 1] == Join(dir, name[..n]);
      DirnameJoin(dir, name[..n]);
    }
  }

  lemma JoinUnder(dir: Path, name: string)
    ensures Under(dir, Join(dir, name))
  {
    assert Join(dir, name)[..|dir| + 1] == dir + "/";
  }

  predicate Absolute(p: Path) {
    p != [] && p[0] == '/'
  }

  /** A path recorded in a manifest; relative ones start from the manifest's directory. */
  function DocumentPath(raw: Value, manifest: Path): (r: Option<Path>)
    ensures r.Some? && Absolute(manifest) && Absolute(Dirname(manifest)) ==> Absolute(r.value)
  {
    if !raw.Text? || raw.s == [] then None
    else if Absolute(raw.s) then Some(raw.s)
    else Some(Join(Dirname(manifest), raw.s))
  }

  /** Two stores hold the same at a path. */
  ghost predicate Agree(s: Store, t: Store, p: Path) {
    (p in s <==> p in t) && (p in s ==> s[p] == t[p])
  }

  /** The store after everything below a directory was replaced; files outside it are out of reach. */
  function ReplaceBelow(store: Store, dir: Path, files: Store): (r: Store)
    ensures forall p :: Agree(r, if Under(dir, p) then files else store, p)
  {
    (map p | p in store && !Under(dir, p) :: store[p]) + (map p | p in files && Under(dir, p) :: files[p])
  }
}
