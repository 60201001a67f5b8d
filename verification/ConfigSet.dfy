/** Changing a managed setting: the configuration, the nftables text, three artifacts per
    managed client, and the server text in two places, written one after another.

    A forward write may fail before or after it took effect. Writes that put old bytes
    back are taken to succeed: without that nothing can be promised. */
module ConfigSet {

  import opened Common

  type Bytes = string
  type Name = string

  /** One file of a managed client. */
  datatype Artifact = Profile(name: Name) | Qr(name: Name) | Meta(name: Name)

  datatype Files = Files(
    config: Bytes,
    nft: Bytes,
    artifacts: map<Artifact, Bytes>,
    generated: Option<Bytes>,
    runtime: Bytes)

  /** Everything a new configuration implies, rendered before the first write. */
  datatype Rendered = Rendered(config: Bytes, nft: Bytes, artifacts: map<Artifact, Bytes>, server: Bytes)

  function ArtifactsOf(name: Name): set<Artifact> { {Profile(name), Qr(name), Meta(name)} }

  function AllArtifacts(names: seq<Name>): set<Artifact> {
    set i, a | 0 <= i < |names| && a in ArtifactsOf(names[i]) :: a
  }

  /** The rendered artifacts cover exactly the managed clients. */
  predicate Covers(r: Rendered, names: seq<Name>) {
    r.artifacts.Keys == AllArtifacts(names)
  }

  /** The rendered bytes of the artifacts in `which`. */
  function Part(r: Rendered, which: set<Artifact>): map<Artifact, Bytes> {
    map a | a in which && a in r.artifacts :: r.artifacts[a]
  }

  lemma PartGrows(base: map<Artifact, Bytes>, r: Rendered, which: set<Artifact>, more: set<Artifact>)
    ensures base + Part(r, which) + Part(r, more) == base + Part(r, which + more)
  {
  }

  /** All files are the rendering of one configuration. */
  function Installed(before: Files, r: Rendered): Files {
    Files(r.config, r.nft, before.artifacts + r.artifacts, Some(r.server), r.server)
  }

  datatype Place = AtConfig | AtArtifacts | AtNft | AtGenerated(applied: bool) | AtRuntime | AtService
  datatype Result = Done | FailedAt(place: Place)

  class Manager {
    var files: Files

    constructor (files: Files)
      ensures this.files == files
    {
      this.files := files;
    }

    /** A forward write of one file: `applied` says whether it took effect. */
    method Attempt() returns (applied: bool, ok: bool)
      ensures ok ==> applied
    {
      applied := *;
      ok := *;
      if !applied { ok := false; }
    }

    /** The up hook of a started service rewrites the nftables text from the configuration. */
    method ServiceAction(nftNow: Bytes) returns (ok: bool)
      modifies this
      ensures files == old(files) || files == old(files).(nft := nftNow)
    {
      var hook := *;
      if hook { files := files.(nft := nftNow); }
      ok := *;
    }

    /** Write the server text in both places, then reload or restart. The two writes come
        before the protected part: only a failing service action puts the old texts back. */
    method CommitServerConfig(text: Bytes, active: bool, act: bool, nftNow: Bytes) returns (r: Result)
      modifies this
      ensures r.Done? ==> files.generated == Some(text) && files.runtime == text
      ensures r.FailedAt? ==> r.place.AtGenerated? || r.place.AtRuntime? || r.place.AtService?
      ensures r == FailedAt(AtService) ==> files.generated == old(files).generated && files.runtime == old(files).runtime
      ensures r == FailedAt(AtGenerated(false)) ==> files == old(files)
      ensures r == FailedAt(AtGenerated(true)) ==> files == old(files).(generated := Some(text))
      ensures r == FailedAt(AtRuntime) ==> files.generated == Some(text) && (files.runtime == text || files.runtime == old(files).runtime)
      ensures files.config == old(files).config && files.artifacts == old(files).artifacts
      ensures files.nft == old(files).nft || files.nft == nftNow
    {
      var oldGenerated, oldRuntime := files.generated, files.runtime;
      var applied, ok := Attempt();
      if applied { files := files.(generated := Some(text)); }
      if !ok { return FailedAt(AtGenerated(applied)); }
      applied, ok := Attempt();
      if applied { files := files.(runtime := text); }
      if !ok { return FailedAt(AtRuntime); }
      if active && act {
        ok := ServiceAction(nftNow);
        if !ok {
          files := files.(runtime := oldRuntime);
          files := files.(generated := oldGenerated);
          var _ := ServiceAction(nftNow);
          return FailedAt(AtService);
        }
      }
      r := Done;
    }

    /** The bytes of every artifact of the managed clients, before anything is written. */
    method SnapshotArtifacts(names: seq<Name>) returns (snapshot: map<Artifact, Bytes>)
      requires AllArtifacts(names) <= files.artifacts.Keys
      ensures snapshot.Keys == AllArtifacts(names)
      ensures forall a | a in snapshot :: snapshot[a] == files.artifacts[a]
    {
      snapshot := map[];
      for i := 0 to |names|
        invariant snapshot.Keys == AllArtifacts(names[..i])
        invariant forall a | a in snapshot :: a in files.artifacts && snapshot[a] == files.artifacts[a]
      {
        var n := names[i];
        forall a | a in ArtifactsOf(n) ensures a in AllArtifacts(names) {}
        snapshot := snapshot[Profile(n) := files.artifacts[Profile(n)]];
        snapshot := snapshot[Qr(n) := files.artifacts[Qr(n)]];
        snapshot := snapshot[Meta(n) := files.artifacts[Meta(n)]];
        AddName(names, i);
      }
      assert names[..|names|] == names;
    }

    /** Put every snapshotted artifact back, in no particular order. */
    method RestoreArtifacts(snapshot: map<Artifact, Bytes>)
      modifies this
      ensures files == old(files).(artifacts := old(files).artifacts + snapshot)
    {
      var todo := snapshot.Keys;
      while todo != {}
        invariant todo <= snapshot.Keys
        invariant files == old(files).(artifacts := files.artifacts)
        invariant files.artifacts == old(files).artifacts + (map a | a in snapshot && a !in todo :: snapshot[a])
        decreases |todo|
      {
        var a :| a in todo;
        files := files.(artifacts := files.artifacts[a := snapshot[a]]);
        todo := todo - {a};
      }
      assert (map a | a in snapshot && a !in todo :: snapshot[a]) == snapshot;
    }

    /** Profile, QR image and metadata of each managed client in turn. */
    method WriteArtifacts(names: seq<Name>, r: Rendered) returns (ok: bool)
      requires Covers(r, names)
      modifies this
      ensures files == old(files).(artifacts := files.artifacts)
      ensures ok ==> files.artifacts == old(files).artifacts + r.artifacts
      ensures files.artifacts.Keys <= old(files).artifacts.Keys + r.artifacts.Keys
      ensures old(files).artifacts.Keys <= files.artifacts.Keys
      ensures forall a | a in files.artifacts && a !in r.artifacts :: files.artifacts[a] == old(files).artifacts[a]
    {
      ok := true;
      var i := 0;
      while i < |names|
        invariant 0 <= i <= |names|
        invariant files == old(files).(artifacts := old(files).artifacts + Part(r, AllArtifacts(names[..i])))
      {
        ghost var done := AllArtifacts(names[..i]);
        forall a | a in ArtifactsOf(names[i]) ensures a in r.artifacts { assert a in AllArtifacts(names); }
        AddName(names, i);
        ok := WriteThree(names[i], r);
        if !ok { return; }
        PartGrows(old(files).artifacts, r, done, ArtifactsOf(names[i]));
        i := i + 1;
      }
      assert names[..|names|] == names;
      assert Part(r, AllArtifacts(names)) == r.artifacts;
    }

    method WriteThree(n: Name, r: Rendered) returns (ok: bool)
      requires ArtifactsOf(n) <= r.artifacts.Keys
      modifies this
      ensures files == old(files).(artifacts := files.artifacts)
      ensures ok ==> files.artifacts == old(files).artifacts + Part(r, ArtifactsOf(n))
      ensures old(files).artifacts.Keys <= files.artifacts.Keys <= old(files).artifacts.Keys + r.artifacts.Keys
      ensures forall a | a in files.artifacts && a !in r.artifacts :: files.artifacts[a] == old(files).artifacts[a]
    {
      ok := WriteOne(Profile(n), r.artifacts[Profile(n)]);
      if !ok { return; }
      ok := WriteOne(Qr(n), r.artifacts[Qr(n)]);
      if !ok { return; }
      ok := WriteOne(Meta(n), r.artifacts[Meta(n)]);
    }

    method WriteOne(a: Artifact, bytes: Bytes) returns (ok: bool)
      modifies this
      ensures files == old(files) || files == old(files).(artifacts := old(files).artifacts[a := bytes])
      ensures ok ==> files == old(files).(artifacts := old(files).artifacts[a := bytes])
    {
      var applied;
      applied, ok := Attempt();
      if applied { files := files.(artifacts := files.artifacts[a := bytes]); }
    }

    lemma AddName(names: seq<Name>, i: nat)
      requires i < |names|
      ensures AllArtifacts(names[..i + 1]) == AllArtifacts(names[..i]) + ArtifactsOf(names[i])
    {
      var longer, shorter := names[..i + 1], names[..i];
      forall a | a in ArtifactsOf(names[i]) ensures a in AllArtifacts(longer) { assert longer[i] == names[i]; }
      forall a | a in AllArtifacts(shorter) ensures a in AllArtifacts(longer) {
        var j :| 0 <= j < |shorter| && a in ArtifactsOf(shorter[j]);
        assert longer[j] == shorter[j];
      }
      forall a | a in AllArtifacts(longer) ensures a in AllArtifacts(shorter) + ArtifactsOf(names[i]) {
        var j :| 0 <= j < |longer| && a in ArtifactsOf(longer[j]);
        if j < i { assert shorter[j] == longer[j]; }
      }
    }

    /** Success leaves every file as the rendering of the new configuration. A failure
        leaves every file as it was if and only if it did not come from the commit's own
        two writes; when it did, the generated text (and it alone, or with the runtime
        text) stays new while everything else is put back. */
    method ConfigSet(names: seq<Name>, r: Rendered, active: bool, act: bool) returns (result: Result)
      requires Covers(r, names) && AllArtifacts(names) <= files.artifacts.Keys
      modifies this
      ensures result.Done? ==> files == Installed(old(files), r)
      ensures result.FailedAt? ==>
                files.config == old(files).config && files.nft == old(files).nft && files.artifacts == old(files).artifacts
      ensures result.FailedAt? && !result.place.AtRuntime? && result.place != AtGenerated(true) ==> files == old(files)
      ensures result.FailedAt? && (result.place.AtRuntime? || result.place == AtGenerated(true)) ==>
                files.generated == Some(r.server)
      ensures result.FailedAt? && old(files).generated != Some(r.server) ==>
                (files == old(files) <==> !result.place.AtRuntime? && result.place != AtGenerated(true))
    {
      var oldConfig, oldNft := files.config, files.nft;
      var snapshot := SnapshotArtifacts(names);
      result := Forward(names, r, active, act);
      if result.FailedAt? {
        files := files.(config := oldConfig);
        files := files.(nft := oldNft);
        RestoreArtifacts(snapshot);
        assert files.artifacts == old(files).artifacts;
      }
    }

    /** The writes in order, up to the first failure. */
    method Forward(names: seq<Name>, r: Rendered, active: bool, act: bool) returns (result: Result)
      requires Covers(r, names) && AllArtifacts(names) <= files.artifacts.Keys
      modifies this
      ensures result.Done? ==> files == Installed(old(files), r)
      ensures files.artifacts.Keys == old(files).artifacts.Keys
      ensures forall a | a in files.artifacts && a !in r.artifacts :: files.artifacts[a] == old(files).artifacts[a]
      ensures result.FailedAt? && !result.place.AtRuntime? && result.place != AtGenerated(true) ==>
                files.generated == old(files).generated && files.runtime == old(files).runtime
      ensures result.FailedAt? && (result.place.AtRuntime? || result.place == AtGenerated(true)) ==>
                files.generated == Some(r.server)
    {
      var applied, ok := Attempt();
      if applied { files := files.(config := r.config); }
      if !ok { return FailedAt(AtConfig); }
      ok := WriteArtifacts(names, r);
      if !ok { return FailedAt(AtArtifacts); }
      applied, ok := Attempt();
      if applied { files := files.(nft := r.nft); }
      if !ok { return FailedAt(AtNft); }
      result := CommitServerConfig(r.server, active, act, r.nft);
    }
  }
}
