/**
 * `ModelManager`: the metadata ledger in the preferences file, the installed
 * model files, and the seeding of both from the models bundled with the app.
 */
module ModelManager {
  import opened Wrappers
  import opened Ints
  import opened Text
  import opened Digest
  import opened Json
  import opened Metadata
  import opened Storage

  const BUNDLED_MODELS: seq<string> :=
    ["fruitid.tflite", "apple_ripeness.tflite", "avocado_ripeness.tflite", "bread_ripeness.tflite"]

  const METADATA_PREFIX: string := "metadata_"

  function MetadataKey(modelName: string): (k: string)
    ensures StartsWith(k, METADATA_PREFIX) && k[|METADATA_PREFIX|..] == modelName
  {
    METADATA_PREFIX + modelName
  }

  /** The ledger keys of two names coincide only when the names do. */
  lemma MetadataKeyInjective(a: string, b: string)
    ensures MetadataKey(a) == MetadataKey(b) ==> a == b
  {
    if MetadataKey(a) == MetadataKey(b) {
      assert a == MetadataKey(a)[|METADATA_PREFIX|..];
    }
  }

  /** `getModelMetadata`: the parsed record stored under the name's key; null if none or unparseable. */
  function GetModelMetadata(entries: Entries, modelName: string): (r: Option<ModelMetadata>)
    ensures MetadataKey(modelName) !in entries ==> r.None?
    ensures MetadataKey(modelName) in entries ==> r == FromJson(Some(entries[MetadataKey(modelName)]))
  {
    var key := MetadataKey(modelName);
    FromJson(if key in entries then Some(entries[key]) else None)
  }

  /** The ledger after `updateModelMetadata(m)`. */
  function PutMetadata(entries: Entries, m: ModelMetadata): Entries {
    entries[MetadataKey(m.modelName) := ToJson(m)]
  }

  /** `updateModelMetadata`: upsert of the record under its model name. */
  method UpdateModelMetadata(prefs: Preferences, m: ModelMetadata)
    modifies prefs
    ensures prefs.entries == PutMetadata(old(prefs.entries), m)
  {
    prefs.PutString(MetadataKey(m.modelName), ToJson(m));
  }

  /** Reading a record back returns what was last written for that name, and writing one name leaves every other name's record as it was. */
  lemma GetAfterPut(entries: Entries, m: ModelMetadata, name: string)
    ensures GetModelMetadata(PutMetadata(entries, m), m.modelName) == Some(m)
    ensures name != m.modelName ==> GetModelMetadata(PutMetadata(entries, m), name) == GetModelMetadata(entries, name)
  {
    RoundTrip(m);
    MetadataKeyInjective(name, m.modelName);
  }

  /** Of two writes for the same name the later one wins. */
  lemma LastWriteWins(entries: Entries, m1: ModelMetadata, m2: ModelMetadata)
    requires m1.modelName == m2.modelName
    ensures GetModelMetadata(PutMetadata(PutMetadata(entries, m1), m2), m1.modelName) == Some(m2)
  {
    GetAfterPut(PutMetadata(entries, m1), m2, m1.modelName);
  }

  /** `getModelFile`: the installed location of a model, the one the downloader installs to. */
  function GetModelFile(modelName: string): (p: Path)
    ensures p == ModelFile(modelName)
    ensures p.dir == ModelsDir && p.fileName == modelName + ".tflite"
  {
    Path(ModelsDir, modelName + ".tflite")
  }

  /** `sha256(file)`: the file's digest in lower-case hex, or "" when it cannot be read. */
  function Sha256(files: Files, p: Path, sha: HashFunction): (r: string)
    ensures p in files ==> r == HexDigest(sha, files[p]) && |r| == 64
    ensures p !in files ==> r == ""
  {
    if p in files then HexDigest(sha, files[p]) else ""
  }

  // ---------------------------------------------------------------- initialize

  /** The version-1 record that `initialize` registers for a bundled asset. */
  function SeedRecord(asset: string, files: Files, sha: HashFunction, now: int64): ModelMetadata {
    ModelMetadata(RemoveSuffix(asset, ".tflite"), 1, Sha256(files, Path(ModelsDir, asset), sha), now)
  }

  /** The ledger key of the model a bundled asset registers. */
  function AssetKey(asset: string): string {
    MetadataKey(RemoveSuffix(asset, ".tflite"))
  }

  /**
   * One iteration of `initialize` for `asset`. `assets` holds the contents of
   * the bundled assets; opening an asset that is not there throws, which is
   * caught and logged before anything is written.
   */
  function InitAsset(st: Store, asset: string, assets: map<string, seq<byte>>, sha: HashFunction, now: int64): (st': Store)
    // A missing file is copied from the bundle and registered, replacing any record.
    ensures Path(ModelsDir, asset) !in st.files && asset in assets ==>
              st'.files == st.files[Path(ModelsDir, asset) := assets[asset]]
              && st'.entries == PutMetadata(st.entries, ModelMetadata(RemoveSuffix(asset, ".tflite"), 1, HexDigest(sha, assets[asset]), now))
              && GetModelMetadata(st'.entries, RemoveSuffix(asset, ".tflite"))
                 == Some(ModelMetadata(RemoveSuffix(asset, ".tflite"), 1, HexDigest(sha, assets[asset]), now))
    // A failed copy leaves everything as it was.
    ensures Path(ModelsDir, asset) !in st.files && asset !in assets ==> st' == st
    // A present file without a record gets a version-1 record with the file's digest.
    ensures Path(ModelsDir, asset) in st.files && MetadataKey(RemoveSuffix(asset, ".tflite")) !in st.entries ==>
              st'.files == st.files
              && st'.entries == PutMetadata(st.entries, ModelMetadata(RemoveSuffix(asset, ".tflite"), 1, HexDigest(sha, st.files[Path(ModelsDir, asset)]), now))
              && GetModelMetadata(st'.entries, RemoveSuffix(asset, ".tflite"))
                 == Some(ModelMetadata(RemoveSuffix(asset, ".tflite"), 1, HexDigest(sha, st.files[Path(ModelsDir, asset)]), now))
    // An existing record is never overwritten.
    ensures Path(ModelsDir, asset) in st.files && MetadataKey(RemoveSuffix(asset, ".tflite")) in st.entries ==> st' == st
    // Nothing is ever removed, and only the asset's own file and record can change.
    ensures st.files.Keys <= st'.files.Keys && st.entries.Keys <= st'.entries.Keys
    ensures forall p :: p != Path(ModelsDir, asset) ==> AgreeOn(st.files, st'.files, p)
    ensures forall k :: k in st.entries && k != AssetKey(asset) ==> k in st'.entries && st'.entries[k] == st.entries[k]
    ensures forall k :: k !in st.entries && k != AssetKey(asset) ==> k !in st'.entries
  {
    var out := Path(ModelsDir, asset);
    if out !in st.files then
      if asset in assets then
        var files' := st.files[out := assets[asset]];
        var m := SeedRecord(asset, files', sha, now);
        RoundTrip(m);
        Store(files', PutMetadata(st.entries, m))
      else
        st
    else
      var modelKey := RemoveSuffix(asset, ".tflite");
      if MetadataKey(modelKey) !in st.entries then
        var m := ModelMetadata(modelKey, 1, Sha256(st.files, out, sha), now);
        RoundTrip(m);
        Store(st.files, PutMetadata(st.entries, m))
      else
        st
  }

  /** `initialize` over a list of assets, one iteration per asset in order. */
  function InitAll(assetNames: seq<string>, st: Store, assets: map<string, seq<byte>>, sha: HashFunction, now: int64): Store {
    if assetNames == [] then st
    else InitAsset(InitAll(assetNames[..|assetNames| - 1], st, assets, sha, now), assetNames[|assetNames| - 1], assets, sha, now)
  }

  /**
   * `initialize`: seeds `models/` from the bundled assets and backfills missing
   * ledger records. Creating the directory is not modelled; every other
   * failure is per asset and does not stop the loop.
   */
  method Initialize(fs: FileSystem, prefs: Preferences, assets: map<string, seq<byte>>, sha: HashFunction, now: int64)
    modifies fs, prefs
    ensures Store(fs.files, prefs.entries) == InitAll(BUNDLED_MODELS, old(Store(fs.files, prefs.entries)), assets, sha, now)
  {
    ghost var st0 := Store(fs.files, prefs.entries);
    for i := 0 to |BUNDLED_MODELS|
      invariant Store(fs.files, prefs.entries) == InitAll(BUNDLED_MODELS[..i], st0, assets, sha, now)
    {
      assert BUNDLED_MODELS[..i + 1][..i] == BUNDLED_MODELS[..i];
      var assetName := BUNDLED_MODELS[i];
      var outFile := Path(ModelsDir, assetName);
      if outFile !in fs.files {
        if assetName in assets {
          fs.Write(outFile, assets[assetName]);
          var sha256 := Sha256(fs.files, outFile, sha);
          var metadata := ModelMetadata(RemoveSuffix(assetName, ".tflite"), 1, sha256, now);
          prefs.PutString(MetadataKey(metadata.modelName), ToJson(metadata));
        }
      } else {
        var modelKey := RemoveSuffix(assetName, ".tflite");
        if MetadataKey(modelKey) !in prefs.entries {
          var sha256 := Sha256(fs.files, outFile, sha);
          var metadata := ModelMetadata(modelKey, 1, sha256, now);
          prefs.PutString(MetadataKey(modelKey), ToJson(metadata));
        }
      }
    }
    assert BUNDLED_MODELS[..|BUNDLED_MODELS|] == BUNDLED_MODELS;
  }

  /** After `initialize` has looked at `asset`: its file is there with a record, or it could not be copied and is still absent. */
  predicate Seeded(st: Store, asset: string, assets: map<string, seq<byte>>) {
    if Path(ModelsDir, asset) in st.files then MetadataKey(RemoveSuffix(asset, ".tflite")) in st.entries
    else asset !in assets
  }

  lemma InitAssetSeeds(st: Store, asset: string, b: string, assets: map<string, seq<byte>>, sha: HashFunction, now: int64)
    ensures Seeded(InitAsset(st, asset, assets, sha, now), asset, assets)
    ensures Seeded(st, b, assets) ==> Seeded(InitAsset(st, asset, assets, sha, now), b, assets)
  {
    var st' := InitAsset(st, asset, assets, sha, now);
    if Seeded(st, b, assets) && Path(ModelsDir, b) !in st'.files {
      assert Path(ModelsDir, b) !in st.files;
    }
  }

  /** A failure on one asset does not stop the others: every listed asset ends up seeded. */
  lemma {:induction false} InitAllSeedsEvery(assetNames: seq<string>, st: Store, assets: map<string, seq<byte>>, sha: HashFunction, now: int64)
    ensures forall a :: a in assetNames ==> Seeded(InitAll(assetNames, st, assets, sha, now), a, assets)
  {
    if assetNames != [] {
      var init := assetNames[..|assetNames| - 1];
      var last := assetNames[|assetNames| - 1];
      InitAllSeedsEvery(init, st, assets, sha, now);
      forall a | a in assetNames
        ensures Seeded(InitAll(assetNames, st, assets, sha, now), a, assets)
      {
        InitAssetSeeds(InitAll(init, st, assets, sha, now), last, a, assets, sha, now);
        if a != last {
          assert a in init by {
            var j :| 0 <= j < |assetNames| && assetNames[j] == a;
            assert init[j] == a;
          }
        }
      }
    }
  }

  /** On a state where every listed asset is already seeded, `initialize` changes nothing. */
  lemma {:induction false} InitAllFixpoint(assetNames: seq<string>, st: Store, assets: map<string, seq<byte>>, sha: HashFunction, now: int64)
    requires forall a :: a in assetNames ==> Seeded(st, a, assets)
    ensures InitAll(assetNames, st, assets, sha, now) == st
  {
    if assetNames != [] {
      var init := assetNames[..|assetNames| - 1];
      forall a | a in init ensures Seeded(st, a, assets) {
        var j :| 0 <= j < |init| && init[j] == a;
        assert assetNames[j] == a;
      }
      InitAllFixpoint(init, st, assets, sha, now);
      assert assetNames[|assetNames| - 1] in assetNames;
    }
  }

  /** `p` is the installed file of none of the assets. */
  predicate OtherPath(assetNames: seq<string>, p: Path) {
    forall a :: a in assetNames ==> p != Path(ModelsDir, a)
  }

  /** `k` is the ledger key of none of the assets. */
  predicate OtherKey(assetNames: seq<string>, k: string) {
    forall a :: a in assetNames ==> k != AssetKey(a)
  }

  lemma OtherDropLast(assetNames: seq<string>, p: Path, k: string)
    requires assetNames != []
    ensures OtherPath(assetNames, p) ==> OtherPath(assetNames[..|assetNames| - 1], p) && p != Path(ModelsDir, assetNames[|assetNames| - 1])
    ensures OtherKey(assetNames, k) ==> OtherKey(assetNames[..|assetNames| - 1], k) && k != AssetKey(assetNames[|assetNames| - 1])
  {
    var init := assetNames[..|assetNames| - 1];
    forall a | a in init ensures a in assetNames {
      var j :| 0 <= j < |init| && init[j] == a;
      assert assetNames[j] == a;
    }
  }

  /** `initialize` leaves every file and record that belongs to none of the listed assets as it was. */
  lemma {:induction false} InitAllFrame(assetNames: seq<string>, st: Store, assets: map<string, seq<byte>>, sha: HashFunction, now: int64, p: Path, k: string)
    ensures var st' := InitAll(assetNames, st, assets, sha, now);
            (OtherPath(assetNames, p) ==> AgreeOn(st.files, st'.files, p))
            && (OtherKey(assetNames, k) ==> (k in st.entries <==> k in st'.entries) && (k in st.entries ==> st'.entries[k] == st.entries[k]))
  {
    if assetNames != [] {
      var init := assetNames[..|assetNames| - 1];
      InitAllFrame(init, st, assets, sha, now, p, k);
      OtherDropLast(assetNames, p, k);
    }
  }

  /** `initialize` is idempotent: a second run, with the same bundle, changes neither files nor ledger. */
  lemma InitializeIdempotent(st: Store, assets: map<string, seq<byte>>, sha: HashFunction, now: int64, later: int64)
    ensures var once := InitAll(BUNDLED_MODELS, st, assets, sha, now);
            InitAll(BUNDLED_MODELS, once, assets, sha, later) == once
  {
    var once := InitAll(BUNDLED_MODELS, st, assets, sha, now);
    InitAllSeedsEvery(BUNDLED_MODELS, st, assets, sha, now);
    InitAllFixpoint(BUNDLED_MODELS, once, assets, sha, later);
  }

  /** The file a bundled asset is copied to is the installed file of the model the asset registers. */
  lemma BundledAssetIsModelFile(asset: string)
    requires EndsWith(asset, ".tflite")
    ensures Path(ModelsDir, asset) == GetModelFile(RemoveSuffix(asset, ".tflite"))
  {
  }

  // ------------------------------------------------------- getAllModelMetadata

  /** A preferences entry that `getAllModelMetadata` reports. */
  predicate Listed(entries: Entries, key: string)
    requires key in entries
  {
    StartsWith(key, METADATA_PREFIX) && FromJson(Some(entries[key])).Some?
  }

  /** `m` is the record parsed from the "metadata_" entry `key`. */
  predicate Reports(entries: Entries, key: string, m: ModelMetadata) {
    key in entries && StartsWith(key, METADATA_PREFIX) && FromJson(Some(entries[key])) == Some(m)
  }

  function ListedKeys(entries: Entries, keys: set<string>): set<string> {
    set k | k in keys && k in entries && Listed(entries, k)
  }

  lemma ListedKeysAdd(entries: Entries, keys: set<string>, key: string)
    requires key in entries && key !in keys
    ensures ListedKeys(entries, keys + {key}) == ListedKeys(entries, keys) + (if Listed(entries, key) then {key} else {})
    ensures key !in ListedKeys(entries, keys)
  {
  }

  /**
   * `out` lists, in the order of `ks`, the record of each key in `ks`; the keys
   * are distinct, and they are all the visited keys that are reported.
   */
  ghost predicate Enumerates(entries: Entries, visited: set<string>, ks: seq<string>, out: seq<ModelMetadata>) {
    |ks| == |out|
    && (forall i :: 0 <= i < |ks| ==> ks[i] in visited && Reports(entries, ks[i], out[i]))
    && (forall i, j :: 0 <= i < j < |ks| ==> ks[i] != ks[j])
    && (forall k :: k in visited && k in entries && Listed(entries, k) ==> k in ks)
  }

  lemma EnumeratesStep(entries: Entries, visited: set<string>, ks: seq<string>, out: seq<ModelMetadata>, key: string)
    requires key in entries && key !in visited && Enumerates(entries, visited, ks, out)
    ensures Listed(entries, key) ==> Enumerates(entries, visited + {key}, ks + [key], out + [FromJson(Some(entries[key])).value])
    ensures !Listed(entries, key) ==> Enumerates(entries, visited + {key}, ks, out)
  {
  }

  /** An enumeration of every key lists exactly the reported records. */
  lemma EnumeratesMembers(entries: Entries, ks: seq<string>, out: seq<ModelMetadata>)
    requires Enumerates(entries, entries.Keys, ks, out)
    ensures forall m :: m in out <==> exists k :: Reports(entries, k, m)
  {
    forall m ensures m in out <==> exists k :: Reports(entries, k, m) {
      if m in out {
        var i :| 0 <= i < |out| && out[i] == m;
        assert Reports(entries, ks[i], m);
      }
      if exists k :: Reports(entries, k, m) {
        var k :| Reports(entries, k, m);
        assert k in ks;
        var i :| 0 <= i < |ks| && ks[i] == k;
        assert out[i] == m;
      }
    }
  }

  /** `getAllModelMetadata`: every parseable record under a "metadata_" key, once per key, in no particular order. */
  method GetAllModelMetadata(prefs: Preferences) returns (out: seq<ModelMetadata>)
    ensures forall m :: m in out <==> exists k :: Reports(prefs.entries, k, m)
    ensures |out| == |ListedKeys(prefs.entries, prefs.entries.Keys)|
    ensures exists ks :: Enumerates(prefs.entries, prefs.entries.Keys, ks, out)
  {
    var entries := prefs.entries;
    var todo := entries.Keys;
    ghost var done: set<string> := {};
    ghost var ks: seq<string> := [];
    out := [];
    while todo != {}
      invariant todo <= entries.Keys && done == entries.Keys - todo
      invariant |out| == |ListedKeys(entries, done)|
      invariant Enumerates(entries, done, ks, out)
      decreases todo
    {
      var key :| key in todo;
      ListedKeysAdd(entries, done, key);
      EnumeratesStep(entries, done, ks, out, key);
      if StartsWith(key, METADATA_PREFIX) {
        var parsed := FromJson(Some(entries[key]));
        if parsed.Some? {
          out := out + [parsed.value];
          ks := ks + [key];
        }
      }
      todo := todo - {key};
      done := done + {key};
    }
    assert done == entries.Keys;
    EnumeratesMembers(entries, ks, out);
  }
}
