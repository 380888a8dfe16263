/**
 Capturing compiled artifacts under byte budgets, and freezing them out of the compiler's reach.
 */
module Snapshot {
  import opened FiniteSums
  import opened Strings
  import opened Wrappers

  type Byte = bv8
  type Bytes = seq<Byte>

  datatype Error = BadPrefix | UnexpectedPath | RequiredOutside | MissingModule | BadFile | CapExceeded | Exists

  /** What a name leads to: the kind and size its metadata report, and the bytes a read then sees. */
  datatype Entry = Entry(regular: bool, stat: nat, data: Bytes)

  /** A directory listing and a captured bundle, by name. */
  type Files<K> = map<K, Entry>
  type Bundle<K> = map<K, Bytes>

  const MAX_FILE: nat := 256 * 1024 * 1024
  const MAX_TOTAL: nat := 2 * 1024 * 1024 * 1024

  const SUFFIXES: set<string> :=
    {".olean", ".olean.private", ".olean.server", ".ilean", ".olean.hash", ".ilean.hash", ".trace"}

  function Names(modules: set<string>): set<string> {
    set m, suffix | m in modules && suffix in SUFFIXES :: m + suffix
  }

  function RequiredOf(modules: set<string>, required: Option<set<string>>): set<string> {
    match required
    case None => modules * {"Scheme", "Solution"}
    case Some(r) => r
  }

  function Oleans(modules: set<string>): set<string> {
    set m | m in modules :: m + ".olean"
  }

  function Min(a: nat, b: nat): nat {
    if a <= b then a else b
  }

  /** stream.read(limit) */
  function Read(data: Bytes, limit: nat): Bytes {
    data[..Min(limit, |data|)]
  }

  // ----- When a capture succeeds -----

  ghost predicate NamesFit(files: Files<string>, modules: set<string>, required: Option<set<string>>) {
    && files.Keys <= Names(modules)
    && RequiredOf(modules, required) <= modules
    && Oleans(RequiredOf(modules, required)) <= files.Keys
  }

  predicate FileFits(e: Entry) {
    e.regular && e.stat <= MAX_FILE && |e.data| <= MAX_FILE
  }

  ghost function SizeTerm<K>(files: Files<K>): K -> nat {
    name => if name in files then |files[name].data| else 0
  }

  /** The bytes of these files together. */
  ghost function TotalSize<K>(files: Files<K>, names: set<K>): nat {
    SumOver(names, SizeTerm(files))
  }

  ghost predicate AllFit<K>(files: Files<K>, names: set<K>)
    requires names <= files.Keys
  {
    (forall name :: name in names ==> FileFits(files[name])) && TotalSize(files, names) <= MAX_TOTAL
  }

  ghost predicate Capturable(files: Files<string>, modules: set<string>, required: Option<set<string>>) {
    NamesFit(files, modules, required) && AllFit(files, files.Keys)
  }

  /** The whole contents, by name. */
  function Contents<K>(files: Files<K>, names: set<K>): Bundle<K>
    requires names <= files.Keys
  {
    map name | name in names :: files[name].data
  }

  // ----- The capture loop -----

  /** The checks on the directory listing. */
  function CheckNames(files: Files<string>, modules: set<string>, required: Option<set<string>>): (e: Option<Error>)
    ensures e.None? <==> NamesFit(files, modules, required)
  {
    if !(files.Keys <= Names(modules)) then Some(UnexpectedPath)
    else if !(RequiredOf(modules, required) <= modules) then Some(RequiredOutside)
    else if !(Oleans(RequiredOf(modules, required)) <= files.Keys) then Some(MissingModule)
    else None
  }

  /** The limit is one byte more than could be accepted: a short read is the whole file, a full one is refused. */
  lemma ReadWhole(data: Bytes, total: nat)
    requires total <= MAX_TOTAL
    ensures var got := Read(data, Min(MAX_FILE, MAX_TOTAL - total) + 1);
            && total + |got| <= MAX_TOTAL + 1
            && (|got| <= MAX_FILE && total + |got| <= MAX_TOTAL <==> |data| <= MAX_FILE && total + |data| <= MAX_TOTAL)
            && (|got| <= MAX_FILE && total + |got| <= MAX_TOTAL ==> got == data)
  {
  }

  /** One file after the files `done`: read whole, or the whole capture is bound to fail. */
  method ReadOne<K(==)>(files: Files<K>, ghost done: set<K>, name: K, total: nat)
    returns (error: Option<Error>, data: Bytes)
    requires done <= files.Keys && name in files && name !in done
    requires AllFit(files, done) && total == TotalSize(files, done)
    ensures error.None? <==> AllFit(files, done + {name})
    ensures error.None? ==> data == files[name].data && total + |data| == TotalSize(files, done + {name})
    ensures error.Some? ==> !AllFit(files, files.Keys)
    ensures total + |data| <= MAX_TOTAL + 1
  {
    var entry := files[name];
    data := [];
    AllFitNext(files, done, name);
    ReadWhole(entry.data, total);
    if !entry.regular || entry.stat > MAX_FILE {
      return Some(BadFile), data;
    }
    data := Read(entry.data, Min(MAX_FILE, MAX_TOTAL - total) + 1);
    if |data| > MAX_FILE || total + |data| > MAX_TOTAL {
      return Some(CapExceeded), data;
    }
    error := None;
  }

  /**
   The read loop.  The names are visited in any order; the source sorts them, which only decides
   which error is met first.  `read` counts the bytes taken from files, also when the capture fails.
   */
  method ReadAll<K(==)>(files: Files<K>) returns (r: Result<Bundle<K>, Error>, ghost read: nat)
    ensures r.Ok? <==> AllFit(files, files.Keys)
    ensures r.Ok? ==> r.value == Contents(files, files.Keys)
    ensures read <= MAX_TOTAL + 1
  {
    read := 0;
    var bundle: Bundle<K> := map[];
    var total: nat := 0;
    var todo := files.Keys;
    while todo != {}
      invariant todo <= files.Keys
      invariant AllFit(files, files.Keys - todo) && total == TotalSize(files, files.Keys - todo) == read
      invariant Holds(bundle, files, files.Keys - todo)
      decreases |todo|
    {
      var name :| name in todo;
      ghost var done := files.Keys - todo;
      Visit(files.Keys, todo, name);
      var error, data := ReadOne(files, done, name, total);
      total := total + |data|;
      read := read + |data|;
      if error.Some? {
        return Err(error.value), read;
      }
      HoldsNext(bundle, files, done, name);
      bundle := bundle[name := data];
      todo := todo - {name};
    }
    assert files.Keys - todo == files.Keys;
    HoldsAll(bundle, files, files.Keys - todo);
    return Ok(bundle), read;
  }

  ghost predicate Holds<K>(bundle: Bundle<K>, files: Files<K>, names: set<K>)
    requires names <= files.Keys
  {
    bundle.Keys == names && forall name :: name in names ==> bundle[name] == files[name].data
  }

  lemma HoldsNext<K>(bundle: Bundle<K>, files: Files<K>, names: set<K>, name: K)
    requires names <= files.Keys && name in files && Holds(bundle, files, names)
    ensures Holds(bundle[name := files[name].data], files, names + {name})
  {
  }

  lemma HoldsAll<K>(bundle: Bundle<K>, files: Files<K>, names: set<K>)
    requires names == files.Keys && Holds(bundle, files, names)
    ensures bundle == Contents(files, files.Keys)
  {
  }

  /** `files` is what the directory that the organizer's prefix leads to lists. */
  method Capture(files: Files<string>, modules: set<string>, prefix: string, required: Option<set<string>>)
    returns (r: Result<Bundle<string>, Error>, ghost read: nat)
    ensures r.Ok? <==> IsDotted(prefix) && Capturable(files, modules, required)
    ensures !IsDotted(prefix) ==> r == Err(BadPrefix)
    ensures r.Ok? ==> r.value == Contents(files, files.Keys)
    ensures read <= MAX_TOTAL + 1
  {
    if !IsDotted(prefix) {
      return Err(BadPrefix), 0;
    }
    var listing := CheckNames(files, modules, required);
    if listing.Some? {
      return Err(listing.value), 0;
    }
    r, read := ReadAll(files);
  }

  lemma AllFitNext<K>(files: Files<K>, done: set<K>, name: K)
    requires done <= files.Keys && name in files && name !in done
    ensures TotalSize(files, done + {name}) == TotalSize(files, done) + |files[name].data|
    ensures AllFit(files, done + {name}) <==>
            AllFit(files, done) && FileFits(files[name]) && TotalSize(files, done) + |files[name].data| <= MAX_TOTAL
    ensures AllFit(files, files.Keys) ==> AllFit(files, done + {name})
  {
    SumAdd(done, SizeTerm(files), name);
    SumSubset(done, done + {name}, SizeTerm(files));
    SumSubset(done + {name}, files.Keys, SizeTerm(files));
  }

  // ----- When a capture succeeds, written out -----

  /** One of the seven kinds of file compiled from a module. */
  predicate IsArtifact(m: string, name: string) {
    || name == m + ".olean" || name == m + ".olean.private" || name == m + ".olean.server" || name == m + ".ilean"
    || name == m + ".olean.hash" || name == m + ".ilean.hash" || name == m + ".trace"
  }

  ghost predicate IsArtifactOf(modules: set<string>, name: string) {
    exists m :: m in modules && IsArtifact(m, name)
  }

  lemma NamesAre(modules: set<string>, name: string)
    ensures name in Names(modules) <==> IsArtifactOf(modules, name)
  {
    if m :| m in modules && IsArtifact(m, name) {
      forall suffix | suffix in SUFFIXES ensures m + suffix in Names(modules) {
      }
    }
    if m, suffix :| m in modules && suffix in SUFFIXES && name == m + suffix {
      assert IsArtifact(m, name);
    }
  }

  /** No name but of artifacts; every file regular and at most 256 MiB, all together at most 2 GiB. */
  ghost predicate WithinLimits(files: Files<string>, modules: set<string>) {
    && (forall name :: name in files ==>
          && IsArtifactOf(modules, name) && files[name].regular
          && files[name].stat <= 268_435_456 && |files[name].data| <= 268_435_456)
    && TotalSize(files, files.Keys) <= 2_147_483_648
  }

  /** By default the compiled `Scheme` and `Solution` must be there if declared; else all that is asked for. */
  ghost predicate HasRequired(files: Files<string>, modules: set<string>, required: Option<set<string>>) {
    match required
    case None =>
      && ("Scheme" in modules ==> "Scheme" + ".olean" in files)
      && ("Solution" in modules ==> "Solution" + ".olean" in files)
    case Some(names) => names <= modules && forall m :: m in names ==> m + ".olean" in files
  }

  lemma OleansAre(modules: set<string>, files: Files<string>)
    ensures Oleans(modules) <= files.Keys <==> forall m :: m in modules ==> m + ".olean" in files
  {
    if Oleans(modules) <= files.Keys {
      forall m | m in modules ensures m + ".olean" in files {
        assert m + ".olean" in Oleans(modules);
      }
    }
  }

  lemma CapturableExact(files: Files<string>, modules: set<string>, required: Option<set<string>>)
    ensures Capturable(files, modules, required) <==>
            WithinLimits(files, modules) && HasRequired(files, modules, required)
  {
    forall name | name in files {
      NamesAre(modules, name);
    }
    RequiredExact(files, modules, required);
    assert MAX_FILE == 268_435_456 && MAX_TOTAL == 2_147_483_648;
  }

  lemma RequiredExact(files: Files<string>, modules: set<string>, required: Option<set<string>>)
    ensures RequiredOf(modules, required) <= modules && Oleans(RequiredOf(modules, required)) <= files.Keys <==>
            HasRequired(files, modules, required)
  {
    OleansAre(RequiredOf(modules, required), files);
  }

  // ----- Freezing -----

  /** A directory whose entries processes change over time. */
  class Directory<K(==)> {
    var files: Files<K>

    constructor (files: Files<K>)
      ensures this.files == files
    {
      this.files := files;
    }

    /** open(name, 'xb') and write: an existing name is never overwritten. */
    method Create(name: K, data: Bytes) returns (ok: bool)
      modifies this
      ensures ok <==> name !in old(files)
      ensures files == if ok then old(files)[name := Frozen(data)] else old(files)
    {
      ok := name !in files;
      if ok {
        files := files[name := Frozen(data)];
      }
    }
  }

  function Frozen(data: Bytes): Entry {
    Entry(true, |data|, data)
  }

  function FrozenFiles<K>(bundle: Bundle<K>): Files<K> {
    map name | name in bundle :: Frozen(bundle[name])
  }

  /** Nothing that was there has changed, and all that is new was frozen out of this bundle. */
  ghost predicate Grew<K>(before: Files<K>, now: Files<K>, bundle: Bundle<K>) {
    && (forall name :: name in before ==> name in now && now[name] == before[name])
    && (forall name :: name in now && name !in before ==> name in bundle && now[name] == Frozen(bundle[name]))
  }

  /** Copy the captured bytes into the verifier's directory. */
  method Freeze(compiler: Directory<string>, verifier: Directory<string>,
                modules: set<string>, prefix: string, required: Option<set<string>>)
    returns (r: Result<Bundle<string>, Error>)
    modifies verifier
    ensures r.Ok? <==> IsDotted(prefix) && Capturable(old(compiler.files), modules, required) &&
                       old(compiler.files).Keys !! old(verifier.files).Keys
    ensures r.Ok? ==> r.value == Contents(old(compiler.files), old(compiler.files).Keys)
    ensures r.Ok? ==> verifier.files == old(verifier.files) + FrozenFiles(r.value)
    ensures r.Err? && r.error != Exists ==> verifier.files == old(verifier.files)
    ensures Grew(old(verifier.files), verifier.files, Contents(old(compiler.files), old(compiler.files).Keys))
  {
    var captured, _ := Capture(compiler.files, modules, prefix, required);
    if captured.Err? {
      return Err(captured.error);
    }
    var ok := WriteAll(verifier, captured.value);
    return if ok then captured else Err(Exists);
  }

  method WriteAll<K(==)>(verifier: Directory<K>, bundle: Bundle<K>) returns (ok: bool)
    modifies verifier
    ensures ok <==> bundle.Keys !! old(verifier.files).Keys
    ensures ok ==> verifier.files == old(verifier.files) + FrozenFiles(bundle)
    ensures Grew(old(verifier.files), verifier.files, bundle)
  {
    ghost var before := verifier.files;
    var todo := bundle.Keys;
    while todo != {}
      invariant todo <= bundle.Keys
      invariant Written(verifier.files, before, bundle, bundle.Keys - todo)
      decreases |todo|
    {
      var name :| name in todo;
      Visit(bundle.Keys, todo, name);
      WrittenNext(verifier.files, before, bundle, bundle.Keys - todo, name);
      ok := verifier.Create(name, bundle[name]);
      if !ok {
        return false;
      }
      todo := todo - {name};
    }
    assert bundle.Keys - todo == bundle.Keys;
    WrittenAll(verifier.files, before, bundle, bundle.Keys - todo);
    return true;
  }

  /** The named part of the bundle has been added to what was there before, and nothing else has changed. */
  ghost predicate Written<K>(now: Files<K>, before: Files<K>, bundle: Bundle<K>, names: set<K>)
    requires names <= bundle.Keys
  {
    && now.Keys == before.Keys + names && names !! before.Keys
    && (forall name :: name in before ==> now[name] == before[name])
    && (forall name :: name in names ==> now[name] == Frozen(bundle[name]))
  }

  lemma WrittenNext<K>(now: Files<K>, before: Files<K>, bundle: Bundle<K>, names: set<K>, name: K)
    requires names <= bundle.Keys && Written(now, before, bundle, names)
    requires name in bundle && name !in names
    ensures name in now <==> name in before
    ensures name !in now ==> Written(now[name := Frozen(bundle[name])], before, bundle, names + {name})
  {
  }

  lemma WrittenAll<K>(now: Files<K>, before: Files<K>, bundle: Bundle<K>, names: set<K>)
    requires names == bundle.Keys && Written(now, before, bundle, names)
    ensures now == before + FrozenFiles(bundle) && bundle.Keys !! before.Keys
  {
  }

  // ----- Recapturing -----

  lemma {:induction false} SizesSame<K>(f: Files<K>, g: Files<K>, names: set<K>)
    requires forall name :: name in names ==> name in f && name in g && f[name].data == g[name].data
    ensures TotalSize(f, names) == TotalSize(g, names)
  {
    SumCongruent(names, SizeTerm(f), SizeTerm(g));
  }

  /** What was frozen into an empty directory can be captured back byte for byte. */
  lemma RecaptureSame(files: Files<string>, modules: set<string>, required: Option<set<string>>)
    requires Capturable(files, modules, required)
    ensures var frozen := FrozenFiles(Contents(files, files.Keys));
            && Capturable(frozen, modules, required)
            && Contents(frozen, frozen.Keys) == Contents(files, files.Keys)
  {
    var frozen := FrozenFiles(Contents(files, files.Keys));
    assert frozen.Keys == files.Keys;
    SizesSame(files, frozen, files.Keys);
  }

  /** Freeze into an empty directory, let the compiler's become anything at all, and capture: the same bundle. */
  method FreezeAndRecapture(compiler: Directory<string>, verifier: Directory<string>, modules: set<string>,
                            prefix: string, required: Option<set<string>>, later: Files<string>)
    returns (frozen: Result<Bundle<string>, Error>, again: Result<Bundle<string>, Error>)
    requires compiler != verifier && verifier.files == map[]
    modifies compiler, verifier
    ensures frozen.Ok? <==> IsDotted(prefix) && Capturable(old(compiler.files), modules, required)
    ensures frozen.Ok? ==> again == frozen && frozen.value == Contents(old(compiler.files), old(compiler.files).Keys)
    ensures compiler.files == later
  {
    ghost var files := compiler.files;
    frozen := Freeze(compiler, verifier, modules, prefix, required);
    compiler.files := later;
    if frozen.Err? {
      return frozen, frozen;
    }
    again := Recapture(verifier.files, modules, prefix, required, files);
  }

  method Recapture(now: Files<string>, modules: set<string>, prefix: string, required: Option<set<string>>,
                   ghost files: Files<string>)
    returns (again: Result<Bundle<string>, Error>)
    requires IsDotted(prefix) && Capturable(files, modules, required)
    requires now == map[] + FrozenFiles(Contents(files, files.Keys))
    ensures again == Ok(Contents(files, files.Keys))
  {
    assert now == FrozenFiles(Contents(files, files.Keys));
    RecaptureSame(files, modules, required);
    var captured, _ := Capture(now, modules, prefix, required);
    again := captured;
  }

  lemma ExtraShows<K>(before: Files<K>, bundle: Bundle<K>)
    requires before.Keys !! bundle.Keys
    ensures var after := before + FrozenFiles(bundle);
            && (Contents(after, after.Keys) == bundle <==> before == map[])
            && (before == map[] ==> after == FrozenFiles(bundle))
  {
    var after := before + FrozenFiles(bundle);
    assert after.Keys == before.Keys + bundle.Keys;
    if before == map[] {
      assert after == FrozenFiles(bundle);
    } else {
      var name :| name in before;
      assert name in Contents(after, after.Keys);
    }
  }

  /** Anything already in the directory shows up: the recapture gives the bundle exactly when there was nothing. */
  lemma RecaptureDetectsExtra(files: Files<string>, modules: set<string>, required: Option<set<string>>,
                              before: Files<string>)
    requires Capturable(files, modules, required) && before.Keys !! files.Keys
    ensures var bundle := Contents(files, files.Keys);
            var after := before + FrozenFiles(bundle);
            Capturable(after, modules, required) && Contents(after, after.Keys) == bundle <==> before == map[]
  {
    ExtraShows(before, Contents(files, files.Keys));
    RecaptureSame(files, modules, required);
  }

  // ----- Manifests -----

  datatype Line<D> = Line(size: nat, digest: D)

  type Listing<K, D> = map<K, Line<D>>

  /** The digest of the encoded listing, and the listing. */
  datatype Manifest<K, D> = Manifest(whole: D, files: Listing<K, D>)

  function Lines<K, D>(bundle: Bundle<K>, digest: Bytes -> D): Listing<K, D> {
    map name | name in bundle :: Line(|bundle[name]|, digest(bundle[name]))
  }

  function ManifestOf<K, D>(bundle: Bundle<K>, digest: Bytes -> D, encode: Listing<K, D> -> Bytes): Manifest<K, D> {
    Manifest(digest(encode(Lines(bundle, digest))), Lines(bundle, digest))
  }

  /** No two different blobs of these bundles share size and digest. */
  ghost predicate Separates<K, D>(digest: Bytes -> D, a: Bundle<K>, b: Bundle<K>) {
    forall m, n :: m in a && n in b && |a[m]| == |b[n]| && digest(a[m]) == digest(b[n]) ==> a[m] == b[n]
  }

  /** Comparing manifests compares bundles, as long as the digest separates the blobs involved. */
  lemma ManifestCompares<K, D>(a: Bundle<K>, b: Bundle<K>, digest: Bytes -> D, encode: Listing<K, D> -> Bytes)
    requires Separates(digest, a, b)
    ensures ManifestOf(a, digest, encode) == ManifestOf(b, digest, encode) <==> a == b
  {
    var x, y := Lines(a, digest), Lines(b, digest);
    if x == y {
      assert a.Keys == x.Keys == y.Keys == b.Keys;
      forall name | name in a ensures a[name] == b[name] {
        assert x[name] == y[name];
      }
    }
  }
}
