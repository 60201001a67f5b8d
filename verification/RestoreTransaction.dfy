/** Replacing the five managed components by a staged copy, and putting them back.

    A directory rename is atomic: it happens or it does not. Any forward step may fail;
    `undoWorks` says whether the steps that put things back succeed. */
module RestoreTransaction {

  import opened Common

  type Bytes = string
  type Tree = map<string, Bytes>   // the files below one component

  datatype Component = Config | Keys | Clients | Revoked | Generated

  const COMPONENTS: seq<Component> := [Config, Keys, Clients, Revoked, Generated]

  const SERVER_TEXT := "awg0.conf"
  const NFT_TEXT := "nftables.nft"

  /** What the up hook of a started service leaves: the nftables text below `generated` is
      rendered again from the configuration that is installed. */
  function Rerendered(root: map<Component, Tree>, render: Tree -> Bytes): map<Component, Tree> {
    if Config in root && Generated in root then root[Generated := root[Generated][NFT_TEXT := render(root[Config])]] else root
  }

  /** The installed nftables text is the rendering of the installed configuration. */
  predicate RulesAsRendered(root: map<Component, Tree>, render: Tree -> Bytes) {
    Config in root && Generated in root ==> NFT_TEXT in root[Generated] && root[Generated][NFT_TEXT] == render(root[Config])
  }

  lemma RerenderedChangesNothingExactlyWhen(root: map<Component, Tree>, render: Tree -> Bytes)
    ensures Rerendered(root, render) == root <==> RulesAsRendered(root, render)
    ensures Rerendered(Rerendered(root, render), render) == Rerendered(root, render)
    ensures forall c | c in root && c != Generated :: Rerendered(root, render)[c] == root[c]
    ensures Generated in root ==>
              (forall f | f in root[Generated] && f != NFT_TEXT ::
                 f in Rerendered(root, render)[Generated] && Rerendered(root, render)[Generated][f] == root[Generated][f])
  {
    if Config in root && Generated in root {
      var tree := root[Generated];
      var again := tree[NFT_TEXT := render(root[Config])];
      assert Rerendered(root, render)[Generated] == again;
      if RulesAsRendered(root, render) { assert again == tree && root[Generated := tree] == root; }
      assert again[NFT_TEXT := render(root[Config])] == again;
    }
  }

  /** A backup whose rules are valid but spelled differently: an active service's restart
      replaces them, so the restored tree is not the backup. */
  lemma EditedRulesAreNotRestored()
    ensures var config: Tree, rules := map["server.json" := "{}"], "table ip amneziawg_nat {}\n# kept by hand\n";
            var backup := map[Config := config, Keys := map[], Clients := map[], Revoked := map[],
                              Generated := map[SERVER_TEXT := "[Interface]\n", NFT_TEXT := rules]];
            var render := (_: Tree) => "table ip amneziawg_nat {}\n";
            Rerendered(backup, render) != backup
  {
    var config: Tree, rules := map["server.json" := "{}"], "table ip amneziawg_nat {}\n# kept by hand\n";
    var backup := map[Config := config, Keys := map[], Clients := map[], Revoked := map[],
                      Generated := map[SERVER_TEXT := "[Interface]\n", NFT_TEXT := rules]];
    var render := (_: Tree) => "table ip amneziawg_nat {}\n";
    RerenderedChangesNothingExactlyWhen(backup, render);
    assert |rules| > |render(config)|;
  }

  lemma AllComponents(c: Component)
    ensures c in COMPONENTS
  {
    match c
    case Config => assert COMPONENTS[0] == c;
    case Keys => assert COMPONENTS[1] == c;
    case Clients => assert COMPONENTS[2] == c;
    case Revoked => assert COMPONENTS[3] == c;
    case Generated => assert COMPONENTS[4] == c;
  }

  /** `before` with the first `n` components replaced by the snapshot's. */
  predicate Swapped(root: map<Component, Tree>, before: map<Component, Tree>, snapshot: map<Component, Tree>, n: nat)
    requires n <= 5
  {
    && (forall j | 0 <= j < n :: COMPONENTS[j] in root && COMPONENTS[j] in snapshot && root[COMPONENTS[j]] == snapshot[COMPONENTS[j]])
    && (forall j | n <= j < 5 :: Same(root, before, COMPONENTS[j]))
  }

  predicate Same(a: map<Component, Tree>, b: map<Component, Tree>, c: Component) {
    (c in a <==> c in b) && (c in a ==> a[c] == b[c])
  }

  lemma SameEverywhere(a: map<Component, Tree>, b: map<Component, Tree>)
    requires forall j | 0 <= j < 5 :: Same(a, b, COMPONENTS[j])
    ensures a == b
  {
    forall c: Component ensures Same(a, b, c) {
      AllComponents(c);
      var j :| 0 <= j < 5 && COMPONENTS[j] == c;
    }
    forall c | c in a ensures c in b && a[c] == b[c] { assert Same(a, b, c); }
    forall c | c in b ensures c in a { assert Same(a, b, c); }
  }

  datatype Moved = Moved(component: Component, hadCurrent: bool)

  class Files {
    const undoWorks: bool
    const render: Tree -> Bytes   // the nftables text of a configuration
    var root: map<Component, Tree>
    var stage: map<Component, Tree>
    var displaced: map<Component, Tree>
    var runtime: Option<Bytes>

    constructor (root: map<Component, Tree>, stage: map<Component, Tree>, runtime: Option<Bytes>, undoWorks: bool,
                 render: Tree -> Bytes)
      ensures this.root == root && this.stage == stage && this.displaced == map[] && this.runtime == runtime
      ensures this.undoWorks == undoWorks && this.render == render
    {
      this.undoWorks := undoWorks;
      this.render := render;
      this.root := root;
      this.stage := stage;
      displaced := map[];
      this.runtime := runtime;
    }

    /** A forward step the environment may refuse. */
    method Goes() returns (ok: bool)
    {
      ok := *;
    }

    /** A step that puts something back. */
    method Undoes() returns (ok: bool)
      ensures undoWorks ==> ok
    {
      ok := *;
      if undoWorks { ok := true; }
    }

    // -------------------------------------------------------------- classic rollback

    /** Install one staged component, keeping what it replaces; on failure leave it as it was. */
    method SwapOne(c: Component) returns (ok: bool, had: bool)
      requires c in stage && c !in displaced
      modifies this
      ensures had == (c in old(root))
      ensures ok ==> root == old(root)[c := old(stage)[c]] && stage == old(stage) - {c}
      ensures ok ==> displaced == if had then old(displaced)[c := old(root)[c]] else old(displaced)
      ensures !ok ==> stage == old(stage)
      ensures !ok && undoWorks ==> root == old(root) && displaced == old(displaced)
      ensures runtime == old(runtime)
    {
      had := c in root;
      if had {
        ok := Goes();
        if !ok { return; }
        displaced := displaced[c := root[c]];
        root := root - {c};
      }
      ok := Goes();
      if ok {
        root := root[c := stage[c]];
        stage := stage - {c};
      } else if had {
        var back := Undoes();
        if back {
          root := root[c := displaced[c]];
          displaced := displaced - {c};
        }
      }
    }

    /** Undo the installed components, last first. */
    method UndoMoved(moved: seq<Moved>, ghost before: map<Component, Tree>, ghost snapshot: map<Component, Tree>)
      requires |moved| <= 5
      requires forall j | 0 <= j < |moved| :: moved[j] == Moved(COMPONENTS[j], COMPONENTS[j] in before)
      requires undoWorks ==> Swapped(root, before, snapshot, |moved|)
      requires undoWorks ==> forall j | 0 <= j < |moved| && moved[j].hadCurrent ::
                 COMPONENTS[j] in displaced && displaced[COMPONENTS[j]] == before[COMPONENTS[j]]
      modifies this
      ensures undoWorks ==> root == before
      ensures runtime == old(runtime)
    {
      var i := |moved|;
      while i > 0
        invariant 0 <= i <= |moved|
        invariant undoWorks ==> Swapped(root, before, snapshot, i)
        invariant undoWorks ==> forall j | 0 <= j < i && moved[j].hadCurrent ::
                    COMPONENTS[j] in displaced && displaced[COMPONENTS[j]] == before[COMPONENTS[j]]
        invariant runtime == old(runtime)
      {
        i := i - 1;
        UndoOne(moved[i]);
        assert forall j | 0 <= j < i :: COMPONENTS[j] != COMPONENTS[i];
      }
      if undoWorks { SameEverywhere(root, before); }
    }

    /** Remove one installed component and move its predecessor, if it had one, back. */
    method UndoOne(m: Moved)
      modifies this
      ensures undoWorks ==>
                root == if m.hadCurrent && m.component in old(displaced) then old(root)[m.component := old(displaced)[m.component]]
                        else old(root) - {m.component}
      ensures undoWorks ==> displaced == if m.hadCurrent then old(displaced) - {m.component} else old(displaced)
      ensures runtime == old(runtime)
    {
      var c := m.component;
      var removed := Undoes();
      if removed { root := root - {c}; }
      if m.hadCurrent {
        var back := Undoes();
        if back && c in displaced && c !in root {
          root := root[c := displaced[c]];
          displaced := displaced - {c};
        }
      }
    }

    /** Restore the exact classic snapshot. Success leaves exactly its components and its
        server text at runtime; failure at any point leaves every component and the
        runtime configuration as they were. */
    method RestoreObfuscationBackup(ghost snapshot: map<Component, Tree>) returns (ok: bool)
      requires stage == snapshot && displaced == map[]
      requires forall c: Component :: c in snapshot
      modifies this
      ensures ok ==> root == snapshot && SERVER_TEXT in snapshot[Generated] && runtime == Some(snapshot[Generated][SERVER_TEXT])
      ensures !ok && undoWorks ==> root == old(root) && runtime == old(runtime)
    {
      if runtime.None? { return false; }
      var runtimeBefore := runtime;
      ghost var before := root;
      var moved: seq<Moved>;
      ok, moved := SwapMoved(snapshot);
      if ok { ok := WriteRuntime(); }
      if ok { ok := Goes(); }   // reload and verified postcondition
      if !ok {
        UndoMoved(moved, before, snapshot);
        var back := Undoes();
        if back { runtime := runtimeBefore; }
      }
    }

    /** What `moved` says about the swaps so far. */
    ghost predicate Moves(moved: seq<Moved>, before: map<Component, Tree>, snapshot: map<Component, Tree>)
      reads this
    {
      && |moved| <= 5 && Swapped(root, before, snapshot, |moved|)
      && forall j | 0 <= j < |moved| && moved[j].hadCurrent ::
           COMPONENTS[j] in displaced && COMPONENTS[j] in before && displaced[COMPONENTS[j]] == before[COMPONENTS[j]]
    }

    /** What is still staged, and not displaced, from component `n` on. */
    ghost predicate Staged(snapshot: map<Component, Tree>, n: nat)
      reads this
    {
      forall j | n <= j < 5 ::
        && COMPONENTS[j] in stage && COMPONENTS[j] in snapshot && stage[COMPONENTS[j]] == snapshot[COMPONENTS[j]]
        && COMPONENTS[j] !in displaced
    }

    /** Swap the next component. */
    method SwapNext(moved: seq<Moved>, ghost before: map<Component, Tree>, ghost snapshot: map<Component, Tree>)
      returns (ok: bool, had: bool)
      requires |moved| < 5 && Moves(moved, before, snapshot) && Staged(snapshot, |moved|)
      modifies this
      ensures runtime == old(runtime)
      ensures ok ==> had == (COMPONENTS[|moved|] in before)
      ensures ok ==> Moves(moved + [Moved(COMPONENTS[|moved|], had)], before, snapshot) && Staged(snapshot, |moved| + 1)
      ensures !ok && undoWorks ==> Moves(moved, before, snapshot)
    {
      var n := |moved|;
      var c := COMPONENTS[n];
      assert Same(root, before, COMPONENTS[n]);
      ok, had := SwapOne(c);
      ghost var longer := moved + [Moved(c, had)];
      assert forall j | 0 <= j < n :: COMPONENTS[j] != c && longer[j] == moved[j];
      assert forall j | n < j < 5 :: COMPONENTS[j] != c;
    }

    /** Check the snapshot, then swap the components in order, up to the first failure. */
    method SwapMoved(ghost snapshot: map<Component, Tree>) returns (ok: bool, moved: seq<Moved>)
      requires stage == snapshot && displaced == map[]
      requires forall c: Component :: c in snapshot
      modifies this
      ensures |moved| <= 5 && runtime == old(runtime)
      ensures forall j | 0 <= j < |moved| :: moved[j] == Moved(COMPONENTS[j], COMPONENTS[j] in old(root))
      ensures undoWorks ==> Moves(moved, old(root), snapshot)
      ensures ok ==> root == snapshot
    {
      ghost var before := root;
      moved := [];
      ok := Goes();
      var i := 0;
      while ok && i < 5
        invariant 0 <= i <= 5 && i == |moved| && runtime == old(runtime)
        invariant forall j | 0 <= j < i :: moved[j] == Moved(COMPONENTS[j], COMPONENTS[j] in before)
        invariant ok || undoWorks ==> Moves(moved, before, snapshot)
        invariant ok ==> Staged(snapshot, i)
        decreases 5 - i, if ok then 1 else 0
      {
        var had;
        ok, had := SwapNext(moved, before, snapshot);
        if ok {
          moved := moved + [Moved(COMPONENTS[i], had)];
          i := i + 1;
        }
      }
      if ok { SameEverywhere(root, snapshot); }
    }

    /** Copy the installed server text to the runtime configuration. */
    method WriteRuntime() returns (ok: bool)
      modifies this`runtime
      ensures ok ==> Generated in root && SERVER_TEXT in root[Generated] && runtime == Some(root[Generated][SERVER_TEXT])
    {
      if Generated !in root || SERVER_TEXT !in root[Generated] { return false; }
      ok := Goes();
      if ok {
        runtime := Some(root[Generated][SERVER_TEXT]);
        ok := Goes();
      }
    }

    // -------------------------------------------------------------- operator restore

    /** What the two lists say: everything moved away is kept, nothing else of the old state
        is lost, and everything present is either new or old. */
    ghost predicate Listed(before: map<Component, Tree>, movedOld: seq<Component>, movedNew: nat)
      requires movedNew <= 5
      reads this
    {
      && (forall c | c in movedOld :: c in displaced && c in before && displaced[c] == before[c])
      && (forall i, j | 0 <= i < j < |movedOld| :: movedOld[i] != movedOld[j])
      && (forall c | c in before :: c in movedOld || (c in root && root[c] == before[c] && c !in COMPONENTS[..movedNew]))
      && (forall c | c in root :: c in COMPONENTS[..movedNew] || (c in before && root[c] == before[c]))
    }

    /** Move one component away, if it is there, and its staged copy in. */
    method SwapListed(n: nat, movedOld: seq<Component>, ghost before: map<Component, Tree>)
      returns (ok: bool, old': seq<Component>)
      requires n < 5 && COMPONENTS[n] in stage && Listed(before, movedOld, n)
      requires forall c | c in movedOld :: c in COMPONENTS[..n]
      modifies this
      ensures Listed(before, old', if ok then n + 1 else n)
      ensures ok ==> COMPONENTS[n] in root && root[COMPONENTS[n]] == old(stage)[COMPONENTS[n]]
      ensures forall c | c in old(root) && c != COMPONENTS[n] :: c in root && root[c] == old(root)[c]
      ensures ok ==> stage == old(stage) - {COMPONENTS[n]}
      ensures ok ==> forall c | c in old' :: c in COMPONENTS[..n + 1]
      ensures runtime == old(runtime)
    {
      var c := COMPONENTS[n];
      assert COMPONENTS[..n + 1] == COMPONENTS[..n] + [c];
      old' := movedOld;
      if c in root {
        ok := Goes();
        if !ok { return; }
        MoveAway(n, movedOld, before);
        old' := movedOld + [c];
      }
      ok := Goes();
      if ok { MoveIn(n, old', before); }
    }

    method MoveIn(n: nat, movedOld: seq<Component>, ghost before: map<Component, Tree>)
      requires n < 5 && COMPONENTS[n] in stage && COMPONENTS[n] !in root && Listed(before, movedOld, n)
      modifies this`root, this`stage
      ensures Listed(before, movedOld, n + 1)
      ensures root == old(root)[COMPONENTS[n] := old(stage)[COMPONENTS[n]]] && stage == old(stage) - {COMPONENTS[n]}
    {
      var c := COMPONENTS[n];
      assert COMPONENTS[..n + 1] == COMPONENTS[..n] + [c];
      root := root[c := stage[c]];
      stage := stage - {c};
    }

    method MoveAway(n: nat, movedOld: seq<Component>, ghost before: map<Component, Tree>)
      requires n < 5 && COMPONENTS[n] in root && Listed(before, movedOld, n)
      requires forall c | c in movedOld :: c in COMPONENTS[..n]
      modifies this`root, this`displaced
      ensures Listed(before, movedOld + [COMPONENTS[n]], n)
      ensures root == old(root) - {COMPONENTS[n]}
    {
      var c := COMPONENTS[n];
      assert c !in COMPONENTS[..n];
      displaced := displaced[c := root[c]];
      root := root - {c};
    }

    /** Restart the service. Its up hook rewrites the nftables text; a restart that succeeds
        has run it, one that fails may have. */
    method Restart() returns (ok: bool, hooked: bool)
      modifies this`root
      ensures ok ==> hooked
      ensures root == if hooked then Rerendered(old(root), render) else old(root)
    {
      hooked := *;
      if hooked && Config in root && Generated in root {
        root := root[Generated := root[Generated][NFT_TEXT := render(root[Config])]];
      }
      ok := *;
      if !hooked { ok := false; }
    }

    /** The operator's restore keeps two lists: what was moved away and what was moved in.
        `hooked` says that a restart ran the up hook on what is installed in the end. Success
        leaves the snapshot and failure the old tree, exactly so if and only if the hook did
        not run or the rules were already spelled the way it renders them; a successful
        restore of an active service has always run it. */
    method RestoreBackup(ghost snapshot: map<Component, Tree>, active: bool) returns (ok: bool, hooked: bool)
      requires stage == snapshot && displaced == map[]
      requires forall c: Component :: c in snapshot
      modifies this
      ensures ok ==> SERVER_TEXT in snapshot[Generated] && runtime == Some(snapshot[Generated][SERVER_TEXT])
      ensures ok ==> (hooked <==> active)
      ensures hooked ==> active
      ensures ok ==> root == if hooked then Rerendered(snapshot, render) else snapshot
      ensures ok ==> (root == snapshot <==> !active || RulesAsRendered(snapshot, render))
      ensures !ok && undoWorks ==> runtime == old(runtime)
      ensures !ok && undoWorks ==> root == if hooked then Rerendered(old(root), render) else old(root)
      ensures !ok && undoWorks ==> (root == old(root) <==> !hooked || RulesAsRendered(old(root), render))
    {
      var oldRuntime := runtime;
      ghost var before := root;
      hooked := false;
      ok := Goes();   // copy and validate the stage, find out whether the service is active
      if !ok { return; }
      var movedOld, movedNew;
      ok, movedOld, movedNew := SwapAll(snapshot);
      if ok { ok := WriteRuntime(); }
      if ok && active { ok, hooked := RestartRestored(before, movedOld, movedNew); }
      if ok { ok := Goes(); }   // identity and modes
      if ok {
        RerenderedChangesNothingExactlyWhen(snapshot, render);
      } else {
        hooked := UndoRestore(movedNew, movedOld, oldRuntime, active, before);
      }
    }

    /** The first `n` components are the snapshot's; the others are still staged. */
    ghost predicate Arrived(snapshot: map<Component, Tree>, n: nat)
      requires n <= 5
      reads this
    {
      && (forall j | 0 <= j < n :: Same(root, snapshot, COMPONENTS[j]) && COMPONENTS[j] in root)
      && (forall j | n <= j < 5 :: Same(stage, snapshot, COMPONENTS[j]) && COMPONENTS[j] in stage)
    }

    method SwapListedNext(n: nat, movedOld: seq<Component>, ghost before: map<Component, Tree>, ghost snapshot: map<Component, Tree>)
      returns (ok: bool, old': seq<Component>)
      requires n < 5 && Listed(before, movedOld, n) && Arrived(snapshot, n)
      requires forall c | c in movedOld :: c in COMPONENTS[..n]
      modifies this
      ensures Listed(before, old', if ok then n + 1 else n) && runtime == old(runtime)
      ensures ok ==> Arrived(snapshot, n + 1) && forall c | c in old' :: c in COMPONENTS[..n + 1]
    {
      hide Listed;
      assert forall j | 0 <= j < 5 && j != n :: COMPONENTS[j] != COMPONENTS[n];
      ok, old' := SwapListed(n, movedOld, before);
    }

    /** Swap the components in order, up to the first failure. */
    method SwapAll(ghost snapshot: map<Component, Tree>) returns (ok: bool, movedOld: seq<Component>, movedNew: nat)
      requires stage == snapshot && displaced == map[]
      requires forall c: Component :: c in snapshot
      modifies this
      ensures movedNew <= 5 && Listed(old(root), movedOld, movedNew) && runtime == old(runtime)
      ensures ok ==> movedNew == 5 && root == snapshot
    {
      ghost var before := root;
      ok, movedOld, movedNew := true, [], 0;
      while ok && movedNew < 5
        invariant 0 <= movedNew <= 5 && runtime == old(runtime)
        invariant Listed(before, movedOld, movedNew)
        invariant ok ==> Arrived(snapshot, movedNew) && forall c | c in movedOld :: c in COMPONENTS[..movedNew]
        decreases 5 - movedNew, if ok then 1 else 0
      {
        ok, movedOld := SwapListedNext(movedNew, movedOld, before, snapshot);
        if ok { movedNew := movedNew + 1; }
      }
      if ok { SameEverywhere(root, snapshot); }
    }

    /** A restart while both lists are kept: what it rewrites is in a component moved in. */
    method RestartRestored(ghost before: map<Component, Tree>, movedOld: seq<Component>, movedNew: nat)
      returns (ok: bool, hooked: bool)
      requires movedNew == 5 && Listed(before, movedOld, movedNew) && Config in root && Generated in root
      modifies this`root
      ensures ok ==> hooked
      ensures root == if hooked then Rerendered(old(root), render) else old(root)
      ensures Listed(before, movedOld, movedNew)
    {
      ok, hooked := Restart();
      forall c: Component ensures c in COMPONENTS[..5] { AllComponents(c); assert COMPONENTS[..5] == COMPONENTS; }
    }

    /** Put everything back; a service that was running is restarted on what is back. */
    method UndoRestore(movedNew: nat, movedOld: seq<Component>, oldRuntime: Option<Bytes>, running: bool,
                       ghost before: map<Component, Tree>) returns (hooked: bool)
      requires movedNew <= 5 && Listed(before, movedOld, movedNew)
      modifies this
      ensures hooked ==> running
      ensures undoWorks ==> runtime == oldRuntime
      ensures undoWorks ==> root == if hooked then Rerendered(before, render) else before
      ensures undoWorks ==> (root == before <==> !hooked || RulesAsRendered(before, render))
    {
      UndoLists(movedNew, movedOld, before);
      var back := Undoes();
      if back { runtime := oldRuntime; }
      hooked := false;
      if running {
        var restarted;
        restarted, hooked := Restart();
      }
      RerenderedChangesNothingExactlyWhen(before, render);
    }

    method UndoLists(movedNew: nat, movedOld: seq<Component>, ghost before: map<Component, Tree>)
      requires movedNew <= 5
      requires Listed(before, movedOld, movedNew)
      modifies this
      ensures undoWorks ==> root == before
      ensures runtime == old(runtime)
    {
      RemoveNew(movedNew, movedOld, before);
      var i := |movedOld|;
      while i > 0
        invariant 0 <= i <= |movedOld| && runtime == old(runtime)
        invariant forall j | 0 <= j < i :: movedOld[j] in displaced && movedOld[j] in before && displaced[movedOld[j]] == before[movedOld[j]]
        invariant undoWorks ==> forall c | c in root :: c in before && root[c] == before[c]
        invariant undoWorks ==> forall c | c in before :: c in movedOld[..i] || (c in root && root[c] == before[c])
      {
        i := i - 1;
        var c := movedOld[i];
        assert movedOld[..i + 1] == movedOld[..i] + [c];
        var back := Undoes();
        if back {
          root := root[c := displaced[c]];
          displaced := displaced - {c};
        }
      }
    }

    /** Remove what was moved in, last first. */
    method RemoveNew(movedNew: nat, movedOld: seq<Component>, ghost before: map<Component, Tree>)
      requires movedNew <= 5
      requires Listed(before, movedOld, movedNew)
      modifies this`root
      ensures undoWorks ==> forall c | c in root :: c in before && root[c] == before[c]
      ensures undoWorks ==> forall c | c in before :: c in movedOld || (c in root && root[c] == before[c])
    {
      var i := movedNew;
      while i > 0
        invariant 0 <= i <= movedNew
        invariant undoWorks ==> forall c | c in root :: c in COMPONENTS[..i] || (c in before && root[c] == before[c])
        invariant undoWorks ==> forall c | c in before :: c in movedOld || (c in root && root[c] == before[c])
      {
        i := i - 1;
        assert COMPONENTS[..i + 1] == COMPONENTS[..i] + [COMPONENTS[i]];
        var removed := Undoes();
        if removed { root := root - {COMPONENTS[i]}; }
      }
    }
  }
}
