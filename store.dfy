/** The part of the file system the tool touches: files holding text or a
    JSON document, and directories, addressed by paths relative to the
    working directory. Each operation the tool performs through `os`,
    `open` and `json` is a function of the store's state here, and the
    `FileSystem` class holds that state and changes it in place. */
module Store {
  import opened PyDict
  import opened Json

  /** A field file holds text; a `.json` file holds the document that
      `json.dump` wrote or `json.load` reads. */
  datatype Content = Text(text: string) | Doc(doc: Json)

  datatype Disk = Disk(files: map<Path, Content>, dirs: set<Path>)

  function Parent(p: Path): Path
    requires p != []
  {
    p[..|p| - 1]
  }

  /** A document read back is a real Python value: its top-level dict, if
      any, is well formed. Dicts nested inside it are not required to be
      well formed. */
  ghost predicate DocValid(v: Json) {
    v.JObj? ==> Valid(v.obj)
  }

  /** A tree: the working directory exists, no path is both a file and a
      directory, and everything but the working directory lies in a
      directory. */
  ghost predicate Sound(d: Disk) {
    && [] in d.dirs
    && d.files.Keys !! d.dirs
    && (forall p :: p in d.dirs && p != [] ==> Parent(p) in d.dirs)
    && (forall p :: p in d.files ==> p != [] && Parent(p) in d.dirs)
    && (forall p :: p in d.files && d.files[p].Doc? ==> DocValid(d.files[p].doc))
  }

  /** `os.path.exists(p)`. */
  predicate Exists(d: Disk, p: Path) {
    p in d.files || p in d.dirs
  }

  /** The error for a path that does not exist: `NotADirectoryError` when
      one of its ancestors is a file, `FileNotFoundError` otherwise. */
  function MissingError(d: Disk, p: Path): Error {
    if exists k | 0 < k < |p| :: p[..k] in d.files then NotADirectory(p) else FileNotFound(p)
  }

  /** `open(p).read()`. */
  function TextAt(d: Disk, p: Path): (r: Result<string>)
    ensures r.Ok? <==> p in d.files && d.files[p].Text?
  {
    if p in d.files then
      (if d.files[p].Text? then Ok(d.files[p].text) else Err(Unreadable(p)))
    else if p in d.dirs then Err(IsADirectory(p))
    else Err(MissingError(d, p))
  }

  /** `json.load(open(p))`. */
  function JsonAt(d: Disk, p: Path): (r: Result<Json>)
    ensures r.Ok? <==> p in d.files && d.files[p].Doc?
  {
    if p in d.files then
      (if d.files[p].Doc? then Ok(d.files[p].doc) else Err(Unreadable(p)))
    else if p in d.dirs then Err(IsADirectory(p))
    else Err(MissingError(d, p))
  }

  /** The names directly inside `p`. */
  function Children(d: Disk, p: Path): set<string> {
    set q | q in d.files.Keys + d.dirs && |q| == |p| + 1 && q[..|p|] == p :: q[|p|]
  }

  /** `set(os.listdir(p))`. */
  function Listing(d: Disk, p: Path): (r: Result<set<string>>)
    ensures r.Ok? <==> p in d.dirs
  {
    if p in d.dirs then Ok(Children(d, p))
    else if p in d.files then Err(NotADirectory(p))
    else Err(MissingError(d, p))
  }

  /** `open(p, 'w').write(...)`: the file is created or replaced. */
  function Write(d: Disk, p: Path, c: Content): (r: Result<Disk>)
    ensures r.Ok? <==> p != [] && p !in d.dirs && Parent(p) in d.dirs
  {
    if p == [] || p in d.dirs then Err(IsADirectory(p))
    else if Parent(p) in d.dirs then Ok(Disk(d.files[p := c], d.dirs))
    else Err(MissingError(d, p))
  }

  /** `os.makedirs(p, exist_ok=True)`: the missing directories on the way to
      `p` are created from the top down; an existing file in the way fails. */
  function MakeDirs(d: Disk, p: Path): (r: Result<Disk>)
    decreases |p|
  {
    if p == [] || p in d.dirs then Ok(d)
    else if p in d.files then Err(FileExists(p))
    else if Parent(p) in d.files then Err(NotADirectory(p))
    else
      var d1 :- MakeDirs(d, Parent(p));
      Ok(Disk(d1.files, d1.dirs + {p}))
  }

  /** `names` lists each member of `s` exactly once. */
  ghost predicate Enumerates(names: seq<string>, s: set<string>) {
    Distinct(names) && forall x :: x in names <==> x in s
  }

  /** `q` is `p` or lies below it. */
  predicate Within(q: Path, p: Path) {
    |p| <= |q| && q[..|p|] == p
  }

  /** Writing keeps the store a tree, and reading the path back gives what was
      written while every path outside it reads as before. */
  lemma WriteThenRead(d: Disk, p: Path, c: Content, q: Path)
    requires Sound(d) && Write(d, p, c).Ok?
    requires c.Doc? ==> DocValid(c.doc)
    ensures Sound(Write(d, p, c).value)
    ensures c.Text? ==> TextAt(Write(d, p, c).value, p) == Ok(c.text)
    ensures c.Doc? ==> JsonAt(Write(d, p, c).value, p) == Ok(c.doc)
    ensures !Within(q, p) ==> TextAt(Write(d, p, c).value, q) == TextAt(d, q)
    ensures !Within(q, p) ==> JsonAt(Write(d, p, c).value, q) == JsonAt(d, q)
  {
    var d' := Write(d, p, c).value;
    if !Within(q, p) {
      forall k | 0 < k < |q| ensures q[..k] in d'.files <==> q[..k] in d.files {
        assert q[..k] != p by {
          if |p| == k { assert q[..|p|] == q[..k]; }
        }
      }
    }
  }

  /** Under a sound store no ancestor of a missing path inside a directory is
      a file. */
  lemma NoFileAbove(d: Disk, p: Path)
    requires Sound(d) && p != [] && Parent(p) in d.dirs
    ensures forall k :: 0 < k < |p| ==> p[..k] !in d.files
    decreases |p|
  {
    forall k | 0 < k < |p| ensures p[..k] !in d.files {
      if k == |p| - 1 {
        assert p[..k] == Parent(p);
      } else {
        NoFileAbove(d, Parent(p));
        assert Parent(p)[..k] == p[..k];
      }
    }
  }

  /** `makedirs` succeeds exactly when no file stands on the way to `p`;
      then `p` and its ancestors are directories, no file changes, and the
      only directories added are ancestors of `p` or `p` itself. */
  lemma {:induction false} MakeDirsEffect(d: Disk, p: Path)
    requires Sound(d)
    ensures MakeDirs(d, p).Ok? <==> forall k :: 0 < k <= |p| ==> p[..k] !in d.files
    ensures MakeDirs(d, p).Ok? ==>
      var d' := MakeDirs(d, p).value;
      && Sound(d') && d'.files == d.files && d.dirs <= d'.dirs && p in d'.dirs
      && forall q :: q in d'.dirs - d.dirs ==> |q| <= |p| && q == p[..|q|]
    decreases |p|
  {
    if p == [] || p in d.dirs {
      if p != [] {
        NoFileAbove(d, p);
        assert p[..|p|] == p;
      }
    } else if p in d.files {
      assert p[..|p|] == p;
    } else if Parent(p) in d.files {
      assert p[..|p| - 1] == Parent(p);
    } else {
      MakeDirsEffect(d, Parent(p));
      forall k | 0 < k < |p| ensures p[..k] == Parent(p)[..k] { }
      assert p[..|p|] == p;
      if MakeDirs(d, p).Ok? {
        var d1 := MakeDirs(d, Parent(p)).value;
        forall q | q in d1.dirs - d.dirs ensures q == p[..|q|] {
          assert Parent(p)[..|q|] == p[..|q|];
        }
      }
    }
  }

  /** A successful `makedirs` leaves `p` a directory. */
  lemma MakeDirsMakes(d: Disk, p: Path)
    requires Sound(d) && MakeDirs(d, p).Ok?
    ensures p in MakeDirs(d, p).value.dirs
  {
    MakeDirsEffect(d, p);
  }

  /** `exist_ok=True`: a second call changes nothing. */
  lemma MakeDirsIdempotent(d: Disk, p: Path)
    requires Sound(d) && MakeDirs(d, p).Ok?
    ensures MakeDirs(MakeDirs(d, p).value, p) == MakeDirs(d, p)
  {
    MakeDirsEffect(d, p);
  }

  /** The operating system's file system as the tool sees it. */
  class FileSystem {
    var files: map<Path, Content>
    var dirs: set<Path>

    function State(): Disk
      reads this
    {
      Disk(files, dirs)
    }

    ghost predicate Valid()
      reads this
    {
      Sound(State())
    }

    constructor (initial: Disk)
      requires Sound(initial)
      ensures State() == initial && Valid()
    {
      files := initial.files;
      dirs := initial.dirs;
    }

    method IsPresent(p: Path) returns (b: bool)
      ensures b == Exists(State(), p)
    {
      b := p in files || p in dirs;
    }

    method ReadText(p: Path) returns (r: Result<string>)
      ensures r == TextAt(State(), p)
    {
      r := TextAt(State(), p);
    }

    method Load(p: Path) returns (r: Result<Json>)
      requires Valid()
      ensures r == JsonAt(State(), p)
      ensures r.Ok? ==> DocValid(r.value)
    {
      r := JsonAt(State(), p);
    }

    /** `os.listdir(p)`: each name once, in an order the system chooses. */
    method ListDir(p: Path) returns (r: Result<seq<string>>)
      ensures r.Ok? <==> Listing(State(), p).Ok?
      ensures r.Err? ==> r.error == Listing(State(), p).error
      ensures r.Ok? ==> Enumerates(r.value, Listing(State(), p).value)
    {
      var listing := Listing(State(), p);
      if listing.Err? {
        return Err(listing.error);
      }
      var rest := listing.value;
      var names := [];
      while rest != {}
        invariant rest <= listing.value
        invariant Distinct(names)
        invariant forall x :: x in names ==> x !in rest
        invariant forall x :: x in listing.value <==> x in names || x in rest
        decreases |rest|
      {
        var x :| x in rest;
        names := names + [x];
        rest := rest - {x};
      }
      return Ok(names);
    }

    method WriteFile(p: Path, c: Content) returns (r: Outcome)
      requires Valid()
      requires c.Doc? ==> DocValid(c.doc)
      modifies this
      ensures Valid()
      ensures Write(old(State()), p, c).Ok? ==> r.Pass? && State() == Write(old(State()), p, c).value
      ensures Write(old(State()), p, c).Err? ==> r == Fail(Write(old(State()), p, c).error) && State() == old(State())
    {
      var w := Write(State(), p, c);
      if w.Err? {
        return Fail(w.error);
      }
      WriteThenRead(State(), p, c, p);
      files := files[p := c];
      return Pass;
    }

    method MakeDirectories(p: Path) returns (r: Outcome)
      requires Valid()
      modifies this
      ensures Valid()
      ensures MakeDirs(old(State()), p).Ok? ==> r.Pass? && State() == MakeDirs(old(State()), p).value
      ensures MakeDirs(old(State()), p).Err? ==> r == Fail(MakeDirs(old(State()), p).error) && State() == old(State())
    {
      var m := MakeDirs(State(), p);
      if m.Err? {
        return Fail(m.error);
      }
      MakeDirsEffect(State(), p);
      dirs := m.value.dirs;
      return Pass;
    }
  }
}
