/** Markdown documents as the pipeline receives them: a path, the parsed YAML frontmatter and
    the body after it. Reading files and parsing the frontmatter are not modelled; the
    documents are given. */
module Documents {

  /** A frontmatter value as the YAML parser returns it. */
  datatype Value =
    | Null
    | Str(s: string)
    | List(items: seq<Value>)
    | OtherScalar(repr: string)   // a number, a boolean, a date: hashable, not a string
    | Mapping                     // a nested mapping: unhashable

  predicate Hashable(v: Value) {
    !v.List? && !v.Mapping?
  }

  /** The anchor of a pure POSIX path: none (relative), "/", or "//", which POSIX leaves
      implementation-defined and pathlib therefore keeps when there are exactly two leading
      slashes. */
  datatype Root = Relative | Slash | DoubleSlash

  /** A pure POSIX path: its root and its components; empty components and "." are dropped,
      as pathlib does. */
  datatype FsPath = FsPath(root: Root, parts: seq<string>)

  predicate IsPart(x: string) {
    x != "" && x != "." && '/' !in x
  }

  predicate Normal(p: FsPath) {
    forall k :: 0 <= k < |p.parts| ==> IsPart(p.parts[k])
  }

  /** The components of a string at '/', skipping empty ones and ".". */
  function PartsOf(s: string): (parts: seq<string>)
    ensures forall k :: 0 <= k < |parts| ==> IsPart(parts[k])
    decreases |s|
  {
    if s == [] then []
    else
      var i := SlashOrEnd(s, 0);
      var head := s[..i];
      var rest := if i < |s| then PartsOf(s[i + 1..]) else [];
      if head == "" || head == "." then rest else [head] + rest
  }

  function SlashOrEnd(s: string, i: nat): (j: nat)
    requires i <= |s|
    ensures i <= j <= |s| && (j < |s| ==> s[j] == '/') && forall k :: i <= k < j ==> s[k] != '/'
    decreases |s| - i
  {
    if i == |s| || s[i] == '/' then i else SlashOrEnd(s, i + 1)
  }

  /** The root pathlib reads from the leading slashes of s. */
  function RootOf(s: string): (r: Root)
    ensures r.Relative? <==> (s == [] || s[0] != '/')
    ensures r.DoubleSlash? <==> (|s| >= 2 && s[0] == '/' && s[1] == '/' && (|s| == 2 || s[2] != '/'))
  {
    if s == [] || s[0] != '/' then Relative
    else if |s| >= 2 && s[1] == '/' && (|s| == 2 || s[2] != '/') then DoubleSlash
    else Slash
  }

  /** Path(s). */
  function PathOf(s: string): (p: FsPath)
    ensures Normal(p)
    ensures p.root == RootOf(s)
  {
    FsPath(RootOf(s), PartsOf(s))
  }

  /** Two leading slashes survive in the path; three or more read as one. */
  lemma LeadingSlashes(x: string)
    requires x != [] && x[0] != '/'
    ensures PathOf("//" + x).root == DoubleSlash && PathOf("/" + x).root == Slash
    ensures PathOf("///" + x) == PathOf("/" + x)
  {
    assert PartsOf("///" + x) == PartsOf("//" + x) == PartsOf("/" + x) == PartsOf(x) by {
      assert ("///" + x)[1..] == "//" + x && ("//" + x)[1..] == "/" + x && ("/" + x)[1..] == x;
    }
  }

  /** Path.name: the last component, "" for the root or the empty path. */
  function Name(p: FsPath): (n: string)
    ensures p.parts != [] ==> n == p.parts[|p.parts| - 1]
    ensures p.parts == [] ==> n == ""
  {
    if p.parts == [] then "" else p.parts[|p.parts| - 1]
  }

  /** Path.parent: the path without its last component (the root and "." are their own
      parent). */
  function Parent(p: FsPath): (q: FsPath)
    ensures q.root == p.root
    ensures p.parts != [] ==> q.parts + [Name(p)] == p.parts
    ensures p.parts == [] ==> q == p
  {
    if p.parts == [] then p else FsPath(p.root, p.parts[..|p.parts| - 1])
  }

  /** The / operator: a right-hand side with a root replaces the left one. */
  function Join(p: FsPath, q: FsPath): (r: FsPath)
    ensures !q.root.Relative? ==> r == q
    ensures q.root.Relative? ==> r.root == p.root && r.parts == p.parts + q.parts
  {
    if !q.root.Relative? then q else FsPath(p.root, p.parts + q.parts)
  }

  /** A relative path joined to a directory lands inside it; joining to a file's parent and
      taking the name gives back the name of what was joined. */
  lemma JoinParent(file: FsPath, rel: FsPath)
    requires rel.root.Relative? && rel.parts != []
    ensures Parent(Join(Parent(file), rel)) == Join(Parent(file), Parent(rel))
    ensures Name(Join(Parent(file), rel)) == Name(rel)
  {
  }

  datatype Document = Document(path: FsPath, frontmatter: map<string, Value>, body: string)

  /** meta.get(key): the value, or None when the key is absent. */
  function Get(frontmatter: map<string, Value>, key: string): Value {
    if key in frontmatter then frontmatter[key] else Null
  }
}
