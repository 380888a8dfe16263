/**
 Capturing the submitted sources once, and materializing that private copy.
 */
module SourceBundle {
  import opened FiniteSums
  import opened Snapshot
  import opened Strings
  import opened Wrappers

  datatype SourceError = TooMany | MissingArtifact | BadName | NotRegular | TooBig | TotalExceeded | NotText

  const REQUIRED: set<string> := {"Scheme.lean", "Solution.lean", "sigma.txt", "hverify.txt", "bound.txt"}
  const FILE_CAP: nat := 4 * 1024 * 1024
  const TOTAL_CAP: nat := 10 * 1024 * 1024
  const LEAN: string := ".lean"

  predicate EndsWith(s: string, suffix: string) {
    |suffix| <= |s| && s[|s| - |suffix|..] == suffix
  }

  /** [A-Za-z_][A-Za-z0-9_]*\.lean */
  predicate IsModuleFile(s: string) {
    EndsWith(s, LEAN) && IsIdentifier(s[..|s| - |LEAN|])
  }

  predicate NameAllowed(name: string) {
    name in REQUIRED || IsModuleFile(name)
  }

  /** `decodes` is strict UTF-8 decoding; no NUL may occur in the text. */
  predicate TextFits(name: string, data: Bytes, decodes: Bytes -> bool) {
    EndsWith(name, LEAN) ==> decodes(data) && 0 !in data
  }

  predicate SourceFits(name: string, e: Entry, decodes: Bytes -> bool) {
    NameAllowed(name) && e.regular && e.stat <= FILE_CAP && |e.data| <= FILE_CAP && TextFits(name, e.data, decodes)
  }

  ghost predicate AllSourcesFit(files: Files<string>, names: set<string>, decodes: Bytes -> bool)
    requires names <= files.Keys
  {
    && (forall name :: name in names ==> SourceFits(name, files[name], decodes))
    && TotalSize(files, names) <= TOTAL_CAP
  }

  ghost predicate Acceptable(files: Files<string>, decodes: Bytes -> bool) {
    |files| <= 1000 && REQUIRED <= files.Keys && AllSourcesFit(files, files.Keys, decodes)
  }

  /** An identifier and `.lean`. */
  ghost predicate NamesModule(name: string) {
    exists stem :: name == stem + ".lean" && IsIdentifier(stem)
  }

  lemma ModuleFileExact(name: string)
    ensures IsModuleFile(name) <==> NamesModule(name)
  {
    if IsModuleFile(name) {
      assert name == name[..|name| - 5] + ".lean";
    }
    if stem :| name == stem + ".lean" && IsIdentifier(stem) {
      assert name[..|name| - 5] == stem && name[|name| - 5..] == ".lean";
    }
  }

  ghost predicate FileWithin(name: string, e: Entry, decodes: Bytes -> bool) {
    && (NamesModule(name) || name == "sigma.txt" || name == "hverify.txt" || name == "bound.txt")
    && e.regular && e.stat <= 4_194_304 && |e.data| <= 4_194_304
    && (NamesModule(name) ==> decodes(e.data) && 0 !in e.data)
  }

  /** At most 1000 files and 10 MiB in all, each regular and at most 4 MiB; the five required names among them. */
  ghost predicate WithinPolicy(files: Files<string>, decodes: Bytes -> bool) {
    && |files| <= 1000
    && "Scheme.lean" in files && "Solution.lean" in files
    && "sigma.txt" in files && "hverify.txt" in files && "bound.txt" in files
    && (forall name :: name in files ==> FileWithin(name, files[name], decodes))
    && TotalSize(files, files.Keys) <= 10_485_760
  }

  lemma NameExact(name: string)
    ensures NameAllowed(name) <==>
            NamesModule(name) || name == "sigma.txt" || name == "hverify.txt" || name == "bound.txt"
    ensures NameAllowed(name) ==> (EndsWith(name, LEAN) <==> NamesModule(name))
  {
    ModuleFileExact(name);
    assert "Scheme.lean"[..6] == "Scheme" && "Solution.lean"[..8] == "Solution";
    assert IsModuleFile("Scheme.lean") && IsModuleFile("Solution.lean");
    assert "sigma.txt"[8] == "hverify.txt"[10] == "bound.txt"[8] == 't';
    assert EndsWith(name, LEAN) ==> name[|name| - 1] == 'n';
  }

  lemma FileExact(name: string, e: Entry, decodes: Bytes -> bool)
    ensures SourceFits(name, e, decodes) <==> FileWithin(name, e, decodes)
  {
    NameExact(name);
    assert FILE_CAP == 4_194_304;
  }

  lemma RequiredExact(files: Files<string>)
    ensures REQUIRED <= files.Keys <==>
            && "Scheme.lean" in files && "Solution.lean" in files
            && "sigma.txt" in files && "hverify.txt" in files && "bound.txt" in files
  {
  }

  lemma AllExact(files: Files<string>, decodes: Bytes -> bool)
    ensures AllSourcesFit(files, files.Keys, decodes) <==>
            && (forall name :: name in files ==> FileWithin(name, files[name], decodes))
            && TotalSize(files, files.Keys) <= 10_485_760
  {
    forall name | name in files
      ensures SourceFits(name, files[name], decodes) <==> FileWithin(name, files[name], decodes)
    {
      FileExact(name, files[name], decodes);
    }
    assert TOTAL_CAP == 10_485_760;
  }

  lemma AcceptableExact(files: Files<string>, decodes: Bytes -> bool)
    ensures Acceptable(files, decodes) <==> WithinPolicy(files, decodes)
  {
    RequiredExact(files);
    AllExact(files, decodes);
  }

  lemma SourcesNext(files: Files<string>, done: set<string>, name: string, decodes: Bytes -> bool)
    requires done <= files.Keys && name in files && name !in done
    ensures TotalSize(files, done + {name}) == TotalSize(files, done) + |files[name].data|
    ensures AllSourcesFit(files, done + {name}, decodes) <==>
            AllSourcesFit(files, done, decodes) && SourceFits(name, files[name], decodes) &&
            TotalSize(files, done) + |files[name].data| <= TOTAL_CAP
    ensures AllSourcesFit(files, files.Keys, decodes) ==> AllSourcesFit(files, done + {name}, decodes)
  {
    SumAdd(done, SizeTerm(files), name);
    SumSubset(done, done + {name}, SizeTerm(files));
    SumSubset(done + {name}, files.Keys, SizeTerm(files));
  }

  /** One file: its metadata is checked before it is read, its real length after. */
  method ReadSource(name: string, e: Entry, total: nat, decodes: Bytes -> bool)
    returns (error: Option<SourceError>, data: Bytes)
    ensures error.None? <==> SourceFits(name, e, decodes) && total + |e.data| <= TOTAL_CAP
    ensures error.None? ==> data == e.data
    ensures |data| <= FILE_CAP + 1
  {
    data := [];
    if !NameAllowed(name) {
      return Some(BadName), data;
    }
    if !e.regular {
      return Some(NotRegular), data;
    }
    if e.stat > FILE_CAP {
      return Some(TooBig), data;
    }
    data := Read(e.data, FILE_CAP + 1);
    if |data| > FILE_CAP {
      return Some(TooBig), data;
    }
    assert data == e.data;
    if total + |data| > TOTAL_CAP {
      return Some(TotalExceeded), data;
    }
    if EndsWith(name, LEAN) && !(decodes(data) && 0 !in data) {
      return Some(NotText), data;
    }
    error := None;
  }

  /** One file after the files `done`: read whole, or the whole capture is bound to fail. */
  method ReadNext(files: Files<string>, ghost done: set<string>, name: string, total: nat, decodes: Bytes -> bool)
    returns (error: Option<SourceError>, data: Bytes)
    requires done <= files.Keys && name in files && name !in done
    requires AllSourcesFit(files, done, decodes) && total == TotalSize(files, done)
    ensures error.None? <==> AllSourcesFit(files, done + {name}, decodes)
    ensures error.None? ==> data == files[name].data && total + |data| == TotalSize(files, done + {name})
    ensures error.Some? ==> !AllSourcesFit(files, files.Keys, decodes)
    ensures |data| <= FILE_CAP + 1
  {
    error, data := ReadSource(name, files[name], total, decodes);
    SourcesNext(files, done, name, decodes);
  }

  /** The sources are captured whole or not at all, within a byte budget on what is actually read. */
  method CaptureSources(files: Files<string>, decodes: Bytes -> bool)
    returns (r: Result<Bundle<string>, SourceError>, ghost read: nat)
    ensures r.Ok? <==> Acceptable(files, decodes)
    ensures r.Ok? ==> r.value == Contents(files, files.Keys)
    ensures read <= TOTAL_CAP + FILE_CAP + 1
  {
    if |files| > 1000 {
      return Err(TooMany), 0;
    }
    if !(REQUIRED <= files.Keys) {
      return Err(MissingArtifact), 0;
    }
    r, read := ReadSources(files, decodes);
  }

  method ReadSources(files: Files<string>, decodes: Bytes -> bool)
    returns (r: Result<Bundle<string>, SourceError>, ghost read: nat)
    ensures r.Ok? <==> AllSourcesFit(files, files.Keys, decodes)
    ensures r.Ok? ==> r.value == Contents(files, files.Keys)
    ensures read <= TOTAL_CAP + FILE_CAP + 1
  {
    read := 0;
    var bundle: Bundle<string> := map[];
    var total: nat := 0;
    var todo := files.Keys;
    while todo != {}
      invariant todo <= files.Keys
      invariant AllSourcesFit(files, files.Keys - todo, decodes) && total == TotalSize(files, files.Keys - todo) == read
      invariant Holds(bundle, files, files.Keys - todo)
      decreases |todo|
    {
      var name :| name in todo;
      ghost var done := files.Keys - todo;
      Visit(files.Keys, todo, name);
      var error, data := ReadNext(files, done, name, total, decodes);
      total := total + |data|;
      read := read + |data|;
      if error.Some? {
        return Err(error.value), read;
      }
      HoldsNext(bundle, files, done, name);
      bundle := bundle[name := data];
      todo := todo - {name};
    }
    assert files.Keys - todo == files.Keys;
    HoldsAll(bundle, files, files.Keys - todo);
    return Ok(bundle), read;
  }

  /** A path at which there is a directory, or nothing. */
  class Place {
    var directory: Directory?<string>

    constructor ()
      ensures directory == null
    {
      directory := null;
    }
  }

  /** The private copy: a directory made for it, holding exactly the captured bytes, or a refusal. */
  method Materialize(bundle: Bundle<string>, destination: Place) returns (ok: bool)
    modifies destination
    ensures ok <==> old(destination.directory) == null
    ensures ok ==> destination.directory != null && fresh(destination.directory) &&
                   destination.directory.files == FrozenFiles(bundle)
    ensures !ok ==> destination.directory == old(destination.directory)
  {
    if destination.directory != null {
      return false;
    }
    var made := new Directory(map[]);
    destination.directory := made;
    ok := WriteAll(made, bundle);
    assert map[] + FrozenFiles(bundle) == FrozenFiles(bundle);
  }

  /** Capturing the private copy again accepts it and gives the same bundle. */
  lemma CaptureOfMaterialized(files: Files<string>, decodes: Bytes -> bool)
    requires Acceptable(files, decodes)
    ensures var copy := FrozenFiles(Contents(files, files.Keys));
            Acceptable(copy, decodes) && Contents(copy, copy.Keys) == Contents(files, files.Keys)
  {
    var copy := FrozenFiles(Contents(files, files.Keys));
    SameKeys(files, copy);
    SizesSame(files, copy, files.Keys);
  }

  lemma SameKeys(files: Files<string>, copy: Files<string>)
    requires copy == FrozenFiles(Contents(files, files.Keys))
    ensures copy.Keys == files.Keys && |copy| == |files|
  {
    assert copy.Keys == files.Keys;
    assert |copy| == |copy.Keys| && |files| == |files.Keys|;
  }
}
