/**
 The integrity check before scoring: the inputs captured at the start are captured again and compared.

 The report holds manifests only, so what the check establishes about the files themselves rests on
 the digest separating their contents.
 */
module Integrity {
  import Receipts
  import opened Snapshot
  import opened SourceBundle
  import opened Strings
  import opened Wrappers

  /** Digests of the harness, the dependencies and the tools. */
  datatype Surroundings<D> = Surroundings(harness: D, dependencies: D, tools: D)

  /** What the report recorded; artifacts only if the submission compiled. */
  datatype Recorded<D> = Recorded(
    submission: Manifest<string, D>, artifacts: Option<Manifest<string, D>>, surroundings: Surroundings<D>)

  /** What there is at the time of the check. */
  datatype Found<D> = Found(sources: Files<string>, artifacts: Files<string>, surroundings: Surroundings<D>)

  /** Library code: strict decoding, a digest, and the encoding of a listing. */
  datatype Codec<!D> = Codec(
    decodes: Bytes -> bool, digest: Bytes -> D, encode: Listing<string, D> -> Bytes)

  function Record<D>(c: Codec<D>, bundle: Bundle<string>): Manifest<string, D> {
    ManifestOf(bundle, c.digest, c.encode)
  }

  ghost predicate SourcesMatch<D>(c: Codec<D>, files: Files<string>, recorded: Manifest<string, D>) {
    Acceptable(files, c.decodes) && Record(c, Contents(files, files.Keys)) == recorded
  }

  ghost predicate ArtifactsMatch<D>(c: Codec<D>, files: Files<string>, modules: set<string>, prefix: string,
                                    recorded: Manifest<string, D>)
  {
    IsDotted(prefix) && Capturable(files, modules, None) && Record(c, Contents(files, files.Keys)) == recorded
  }

  method CheckIntegrity<D(==)>(c: Codec<D>, modules: set<string>, prefix: string, report: Recorded<D>, found: Found<D>)
    returns (ok: bool)
    ensures ok <==> SourcesMatch(c, found.sources, report.submission) &&
                    (report.artifacts.Some? ==>
                       ArtifactsMatch(c, found.artifacts, modules, prefix, report.artifacts.value)) &&
                    found.surroundings == report.surroundings
  {
    var sources, _ := CaptureSources(found.sources, c.decodes);
    if sources.Err? || Record(c, sources.value) != report.submission {
      return false;
    }
    if report.artifacts.Some? {
      var artifacts, _ := Capture(found.artifacts, modules, prefix, None);
      if artifacts.Err? || Record(c, artifacts.value) != report.artifacts.value {
        return false;
      }
    }
    return found.surroundings == report.surroundings;
  }

  // ----- What a passed check means -----

  /** The manifest of a bundle matches exactly the directories that list this bundle and nothing else. */
  lemma MatchMeansSame<D>(c: Codec<D>, files: Files<string>, bundle: Bundle<string>)
    requires Separates(c.digest, Contents(files, files.Keys), bundle)
    ensures SourcesMatch(c, files, Record(c, bundle)) <==>
            Acceptable(files, c.decodes) && Contents(files, files.Keys) == bundle
  {
    ManifestCompares(Contents(files, files.Keys), bundle, c.digest, c.encode);
  }

  lemma ArtifactsMatchMeansSame<D>(c: Codec<D>, files: Files<string>, modules: set<string>, prefix: string,
                                   bundle: Bundle<string>)
    requires Separates(c.digest, Contents(files, files.Keys), bundle)
    ensures ArtifactsMatch(c, files, modules, prefix, Record(c, bundle)) <==>
            IsDotted(prefix) && Capturable(files, modules, None) && Contents(files, files.Keys) == bundle
  {
    ManifestCompares(Contents(files, files.Keys), bundle, c.digest, c.encode);
  }

  /** The copies the run made, left alone, pass. */
  lemma UntouchedMatches<D>(c: Codec<D>, submitted: Files<string>, compiled: Files<string>,
                            modules: set<string>, prefix: string)
    requires Acceptable(submitted, c.decodes)
    requires IsDotted(prefix) && Capturable(compiled, modules, None)
    ensures var bundle, frozen := Contents(submitted, submitted.Keys), Contents(compiled, compiled.Keys);
            && SourcesMatch(c, FrozenFiles(bundle), Record(c, bundle))
            && ArtifactsMatch(c, FrozenFiles(frozen), modules, prefix, Record(c, frozen))
  {
    CaptureOfMaterialized(submitted, c.decodes);
    RecaptureSame(compiled, modules, None);
  }

  // ----- The check inside a run -----

  /** A run in which the integrity check, if it is reached, finds these directories. */
  method RunFinding<D(==)>(w: Receipts.World, c: Codec<D>, modules: set<string>, prefix: string, found: Found<D>,
                           bundle: Bundle<string>, frozen: Bundle<string>, before: Surroundings<D>)
    returns (receipt: Option<Receipts.Receipt>)
    requires Separates(c.digest, Contents(found.sources, found.sources.Keys), bundle)
    requires Separates(c.digest, Contents(found.artifacts, found.artifacts.Keys), frozen)
    ensures receipt.Some? && receipt.value.score.Some? ==>
              && Contents(found.sources, found.sources.Keys) == bundle
              && Contents(found.artifacts, found.artifacts.Keys) == frozen
              && found.surroundings == before
  {
    var artifacts := if w.compileExit == 0 then Some(Record(c, frozen)) else None;
    var report := Recorded(Record(c, bundle), artifacts, before);
    var ok := CheckIntegrity(c, modules, prefix, report, found);
    MatchMeansSame(c, found.sources, bundle);
    ArtifactsMatchMeansSame(c, found.artifacts, modules, prefix, frozen);
    receipt := Receipts.Run(w.(drift := !ok));
  }
}
