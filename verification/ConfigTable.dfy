/** The listed paths, and exactly which configurations a change may pass through. */
module ConfigTable {
  import opened Options
  import opened ConfigChange

  const Whole: Table := map[
    "$schema" := Editor,
    "completion" := Editor,
    "hint" := Editor,
    "codeLens" := Editor,
    "semanticTokens" := Editor,
    "hover" := Editor,
    "documentColor" := Editor,
    "codeAction" := Editor,
    "inlineValues" := Editor,
    "diagnostics" := Diagnostics,
    "format" := Diagnostics,
    "workspace" := Workspace
  ]

  const InWorkspace: Table := map[
    "workspace.moduleMap" := Analysis,
    "workspace.enableReindex" := Editor,
    "workspace.reindexDuration" := Editor
  ]

  const InGmod: Table := map[
    "gmod.enabled" := Workspace,
    "gmod.annotationsPath" := Workspace,
    "gmod.autoLoadAnnotations" := Workspace,
    "gmod.autoDetectGamemodeBase" := Workspace
  ]

  const InRuntime: Table := map["runtime.extensions" := Workspace]

  const PathChanges: Table := Whole + InWorkspace + InRuntime + InGmod

  /** The sections that only request handling reads. */
  const EditorSections: set<string> := {"$schema", "completion", "hint", "codeLens", "semanticTokens", "hover",
    "documentColor", "codeAction", "inlineValues"}

  /** What is listed, by what it reaches. */
  function Listed(p: string): Option<Reach> {
    if p in EditorSections || p == "workspace.enableReindex" || p == "workspace.reindexDuration" then Some(Editor)
    else if p == "diagnostics" || p == "format" then Some(Diagnostics)
    else if p == "workspace.moduleMap" then Some(Analysis)
    else if p == "workspace" || p == "runtime.extensions" || p in InGmod then Some(Workspace)
    else None
  }

  lemma WholeIsListed(p: string)
    requires p in Whole
    ensures Listed(p) == Some(Whole[p]) && p !in InWorkspace && p !in InRuntime && p !in InGmod
  {
    WholePaths(p);
    if p in InWorkspace {
      WorkspacePaths(p);
    }
    if p in InRuntime {
      RuntimePaths(p);
    }
    if p in InGmod {
      GmodPaths(p);
    }
  }

  lemma WorkspaceIsListed(p: string)
    requires p in InWorkspace
    ensures Listed(p) == Some(InWorkspace[p]) && p !in InRuntime && p !in InGmod
  {
    assert p[0] == 'w' && p[9] == '.';
  }

  lemma RuntimeIsListed(p: string)
    requires p in InRuntime
    ensures Listed(p) == Some(InRuntime[p]) && p !in InGmod
  {
    assert p[0] == 'r';
  }

  lemma GmodIsListed(p: string)
    requires p in InGmod
    ensures Listed(p) == Some(InGmod[p])
  {
    assert p[0] == 'g';
  }

  /** The table says of every path what is listed for it. */
  lemma TableIsListed(p: string)
    ensures Lookup(PathChanges, p) == Listed(p)
  {
    if p in InGmod {
      GmodIsListed(p);
    } else if p in InRuntime {
      RuntimeIsListed(p);
    } else if p in InWorkspace {
      WorkspaceIsListed(p);
    } else if p in Whole {
      WholeIsListed(p);
    } else {
      NotListedAtAll(p);
    }
    hide Listed;
  }

  lemma NotListedAtAll(p: string)
    requires p !in Whole && p !in InWorkspace && p !in InRuntime && p !in InGmod
    ensures Listed(p) == None
  {
  }

  /** Of the gmod settings, those that decide which files load. */
  lemma GmodPathsAre(p: string)
    ensures p in InGmod <==> p == "gmod.enabled" || p == "gmod.annotationsPath" || p == "gmod.autoLoadAnnotations"
                             || p == "gmod.autoDetectGamemodeBase"
  {
  }

  /** `p` has at most one dot, the one that ends `head`. */
  predicate OneDot(p: string, head: string) {
    (head == "" || head + "." <= p) && forall i | 0 <= i < |p| && p[i] == '.' :: head != "" && i == |head|
  }

  lemma WholePaths(p: string)
    requires p in Whole
    ensures OneDot(p, "")
  {
  }

  lemma WorkspacePaths(p: string)
    requires p in InWorkspace
    ensures OneDot(p, "workspace")
  {
  }

  lemma GmodPaths(p: string)
    requires p in InGmod
    ensures OneDot(p, "gmod")
  {
  }

  lemma RuntimePaths(p: string)
    requires p in InRuntime
    ensures OneDot(p, "runtime")
  {
  }

  /** A listed path has no dot, or one after one of three sections. */
  lemma ListedPaths(p: string)
    requires p in PathChanges
    ensures OneDot(p, "") || OneDot(p, "workspace") || OneDot(p, "runtime") || OneDot(p, "gmod")
  {
    hide OneDot;
    if p in Whole {
      WholePaths(p);
    } else if p in InWorkspace {
      WorkspacePaths(p);
    } else if p in InRuntime {
      RuntimePaths(p);
    } else {
      GmodPaths(p);
    }
  }

  lemma TableIsRooted()
    ensures Rooted(PathChanges)
  {
    forall p | p in PathChanges ensures !("." <= p) {
      assert "." <= p ==> p[0] == '.';
      ListedPaths(p);
    }
  }

  /** Paths are listed below three sections only. */
  lemma ListedBelow(path: string)
    requires HasListedDescendant(PathChanges, path)
    ensures path == "workspace" || path == "runtime" || path == "gmod"
  {
    var p :| p in PathChanges && path + "." <= p;
    ListedPaths(p);
    assert p[|path|] == (path + ".")[|path|];
    assert path == p[..|path|] by {
      assert path == (path + ".")[..|path|];
    }
    if OneDot(p, "workspace") {
      assert "workspace" == p[..9] by { assert "workspace" == ("workspace" + ".")[..9]; }
    } else if OneDot(p, "runtime") {
      assert "runtime" == p[..7] by { assert "runtime" == ("runtime" + ".")[..7]; }
    } else {
      assert "gmod" == p[..4] by { assert "gmod" == ("gmod" + ".")[..4]; }
    }
  }

  /** The sections whose entries reach further than the section itself are objects. */
  predicate Complete(b: Value)
    requires b.Object?
  {
    IsObject(Lookup(b.fields, "runtime")) && IsObject(Lookup(b.fields, "gmod"))
  }

  lemma WorkspaceIsWidest()
    ensures Bounded(PathChanges, "workspace", Nearest(PathChanges, "workspace"))
  {
    assert "workspace" in Whole;
    assert "workspace" !in InWorkspace && "workspace" !in InRuntime && "workspace" !in InGmod;
    assert Nearest(PathChanges, "workspace") == Workspace;
  }

  /** Below a section nothing is listed deeper. */
  lemma SectionIsFlat(section: string, v: Value)
    requires section == "workspace" || section == "runtime" || section == "gmod"
    requires v.Object?
    ensures ShapedFields(PathChanges, section, v)
  {
    forall k ensures Shaped(PathChanges, Join(section, k), Lookup(v.fields, k)) {
      var path := Join(section, k);
      assert path[|section|] == '.';
      if HasListedDescendant(PathChanges, path) {
        ListedBelow(path);
      }
    }
  }

  lemma CompleteIsShaped(b: Value)
    requires b.Object? && Complete(b)
    ensures ShapedFields(PathChanges, "", b)
  {
    forall k ensures Shaped(PathChanges, Join("", k), Lookup(b.fields, k)) {
      if HasListedDescendant(PathChanges, k) {
        ListedBelow(k);
        if IsObject(Lookup(b.fields, k)) {
          SectionIsFlat(k, b.fields[k]);
        } else {
          WorkspaceIsWidest();
        }
      }
    }
  }

  /** A section missing from `b`, and two configurations that differ below it. */
  function With(b: Value, section: string, key: string, text: string): Value
    requires b.Object?
  {
    Object(b.fields[section := Object(map[key := Plain(text)])])
  }

  /** A section that is not listed itself, with a workspace entry below. */
  predicate Steep(table: Table, section: string, key: string) {
    section !in table && LastDot(section).None? && section != "" && Lookup(table,
        section + "." + key) == Some(Workspace)
  }

  lemma EntryReach(table: Table, section: string, key: string)
    requires Steep(table, section, key)
    ensures ValueChange(table, Join(section, key), Some(Plain("1")), Some(Plain("2"))) == Workspace
    ensures Nearest(table, section) == Analysis && HasListedDescendant(table, section)
  {
    assert Join(section, key) == section + "." + key;
    assert section + "." <= section + "." + key;
    assert Plain("1") != Plain("2") by {
      assert "1"[0] != "2"[0];
    }
  }

  lemma SectionChange(table: Table, section: string, key: string)
    requires Steep(table, section, key)
    ensures ValueChange(table, section, Some(Object(map[key := Plain("1")])),
        Some(Object(map[key := Plain("2")]))) == Workspace
  {
    var x, y := Object(map[key := Plain("1")]), Object(map[key := Plain("2")]);
    EntryReach(table, section, key);
    OneKeyDiffers(table, section, x, y, key);
    hide Nearest, HasListedDescendant, ObjectChange, LastDot;
    assert x.fields[key] == Plain("1") && y.fields[key] == Plain("2");
    assert "1"[0] != "2"[0];
  }

  /**
   * Two configurations that differ in a section's entry are a workspace apart, and each an
   * analysis away from one without the section.
   */
  lemma ThroughMissing(table: Table, b: Value, section: string, key: string)
    requires b.Object? && !IsObject(Lookup(b.fields, section)) && Steep(table, section, key)
    ensures var a, c := With(b, section, key, "1"), With(b, section, key, "2");
            ChangeTo(table, a, c) == Workspace && ChangeTo(table, a, b) == Analysis && ChangeTo(table, b, c) == Analysis
  {
    var a, c := With(b, section, key, "1"), With(b, section, key, "2");
    SectionChange(table, section, key);
    EntryReach(table, section, key);
    hide Nearest, HasListedDescendant, ObjectChange, LastDot, ChangeTo;
    OnlyKeyDiffers(table, a, c, section);
    OnlyKeyDiffers(table, a, b, section);
    OnlyKeyDiffers(table, b, c, section);
  }

  lemma OnlyKeyDiffers(table: Table, a: Value, c: Value, section: string)
    requires a.Object? && c.Object? && section in a.fields.Keys + c.fields.Keys
    requires forall k | k != section :: Lookup(a.fields, k) == Lookup(c.fields, k)
    ensures ChangeTo(table, a, c) == ValueChange(table, section, Lookup(a.fields, section), Lookup(c.fields, section))
  {
    OneKeyDiffers(table, "", a, c, section);
  }

  lemma OneKeyDiffers(table: Table, prefix: string, a: Value, c: Value, key: string)
    requires a.Object? && c.Object? && key in a.fields.Keys + c.fields.Keys
    requires forall k | k != key :: Lookup(a.fields, k) == Lookup(c.fields, k)
    ensures ObjectChange(table, prefix, a, c) == ValueChange(table, Join(prefix, key), Lookup(a.fields, key),
        Lookup(c.fields, key))
  {
    KeyWithin(table, prefix, a, c, key);
    var change := ValueChange(table, Join(prefix, key), Lookup(a.fields, key), Lookup(c.fields, key));
    forall k | k in a.fields.Keys + c.fields.Keys
        ensures Le(ValueChange(table, Join(prefix, k), Lookup(a.fields, k), Lookup(c.fields, k)), change) {
      if k != key {
        SameIsUnchanged(table, Join(prefix, k), Lookup(a.fields, k));
      }
    }
    hide ValueChange, Nearest;
    LeBothWays(ObjectChange(table, prefix, a, c), change);
  }

  lemma SameIsUnchanged(table: Table, path: string, v: Option<Value>)
    ensures ValueChange(table, path, v, v) == Unchanged
  {
  }

  /**
   * Passing through `b` never hides how far a change reaches exactly when
   * `b` has the sections whose entries reach further than they do.
   */
  lemma StepsNeverHideReach(b: Value)
    requires b.Object?
    ensures (forall a: Value, c: Value | a.Object? && c.Object? :: Le(ChangeTo(PathChanges, a, c),
        Wider(ChangeTo(PathChanges, a, b), ChangeTo(PathChanges, b, c))))
       <==> Complete(b)
  {
    TableIsRooted();
    if Complete(b) {
      CompleteIsShaped(b);
      forall a: Value, c: Value | a.Object? && c.Object?
          ensures Le(ChangeTo(PathChanges, a, c), Wider(ChangeTo(PathChanges, a, b), ChangeTo(PathChanges, b, c))) {
        ChangeTriangle(PathChanges, a, b, c);
      }
    } else {
      GmodIsSteep();
      RuntimeIsSteep();
      var gmod := !IsObject(Lookup(b.fields, "gmod"));
      var section, key := if gmod then "gmod" else "runtime", if gmod then "enabled" else "extensions";
      ThroughMissing(PathChanges, b, section, key);
      var a, c := With(b, section, key, "1"), With(b, section, key, "2");
      assert a.Object? && c.Object? && !Le(ChangeTo(PathChanges, a, c),
          Wider(ChangeTo(PathChanges, a, b), ChangeTo(PathChanges, b, c)));
    }
  }

  lemma GmodIsSteep()
    ensures Steep(PathChanges, "gmod", "enabled")
  {
    hide LastDot;
    assert "gmod" + "." + "enabled" == "gmod.enabled";
    GmodEnabled();
    NotListed("gmod");
    NoDot("gmod");
    hide Steep;
    SteepIs(PathChanges, "gmod", "enabled");
  }

  lemma RuntimeIsSteep()
    ensures Steep(PathChanges, "runtime", "extensions")
  {
    hide LastDot;
    assert "runtime" + "." + "extensions" == "runtime.extensions";
    RuntimeExtensions();
    NotListed("runtime");
    NoDot("runtime");
    hide Steep;
    SteepIs(PathChanges, "runtime", "extensions");
  }

  lemma SteepIs(table: Table, section: string, key: string)
    requires section !in table && LastDot(section).None? && section != ""
      && Lookup(table, section + "." + key) == Some(Workspace)
    ensures Steep(table, section, key)
  {
  }

  lemma NoDot(s: string)
    requires forall i | 0 <= i < |s| :: s[i] != '.'
    ensures LastDot(s).None?
  {
  }

  lemma GmodEnabled()
    ensures Lookup(PathChanges, "gmod.enabled") == Some(Workspace)
  {
    assert "gmod.enabled" in InGmod;
  }

  lemma RuntimeExtensions()
    ensures Lookup(PathChanges, "runtime.extensions") == Some(Workspace)
  {
    assert "runtime.extensions" in InRuntime && "runtime.extensions" !in InGmod;
  }

  lemma NotListed(section: string)
    requires section == "gmod" || section == "runtime"
    ensures section !in PathChanges
  {
    assert section !in InWorkspace && section !in InRuntime && section !in InGmod && section !in Whole;
  }

  // ---- Configurations as they serialize ----

  /** The sections of a configuration, each a struct of its own. */
  const Sections: set<string> := {
    "completion", "diagnostics", "hint", "runtime", "gmod", "workspace", "resource", "codeLens", "strict",
    "semanticTokens", "references", "hover", "documentColor", "codeAction", "inlineValues", "doc", "format"
  }

  /** What a configuration serializes to: every section an object, and beside them at most the schema. */
  predicate Emmyrc(v: Value) {
    && v.Object? && v.fields.Keys <= Sections + {"$schema"}
    && forall section | section in Sections :: IsObject(Lookup(v.fields, section))
  }

  lemma ListedSections()
    ensures "workspace" in Sections && "runtime" in Sections && "gmod" in Sections
  {
  }

  lemma EmmyrcIsComplete(v: Value)
    requires Emmyrc(v)
    ensures Complete(v)
  {
    ListedSections();
  }

  lemma FlatIsRegular(section: string, was: Value, now: Value)
    requires section == "workspace" || section == "runtime" || section == "gmod"
    requires was.Object? && now.Object?
    ensures RegularFields(PathChanges, section + ".", was, now)
  {
    forall k | k in was.fields.Keys + now.fields.Keys
      ensures Regular(PathChanges, section + "." + k, Lookup(was.fields, k), Lookup(now.fields, k))
    {
      var path := section + "." + k;
      assert path[|section|] == '.';
      if HasListedDescendant(PathChanges, path) {
        ListedBelow(path);
      }
    }
  }

  lemma EmmyrcIsRegular(was: Value, now: Value)
    requires Emmyrc(was) && Emmyrc(now)
    ensures RegularFields(PathChanges, "", was, now)
  {
    ListedSections();
    hide Emmyrc;
    EmmyrcFacts(was);
    EmmyrcFacts(now);
    forall k | k in was.fields.Keys + now.fields.Keys
        ensures Regular(PathChanges, "" + k, Lookup(was.fields, k), Lookup(now.fields, k)) {
      assert "" + k == k;
      if HasListedDescendant(PathChanges, k) {
        ListedBelow(k);
        FlatIsRegular(k, was.fields[k], now.fields[k]);
      }
    }
  }

  lemma EmmyrcFacts(v: Value)
    requires Emmyrc(v)
    ensures v.Object? && forall section | section in Sections :: IsObject(Lookup(v.fields, section))
  {
  }

  /** Between any two configurations the change is the widest entry over all leaves that differ. */
  lemma EmmyrcChangeIsWidestLeaf(was: Value, now: Value)
    requires Emmyrc(was) && Emmyrc(now)
    ensures ChangeTo(PathChanges, was, now) == Widest(Reaches(PathChanges, DifferingFields("", was, now)))
  {
    TableIsRooted();
    EmmyrcIsRegular(was, now);
    EmmyrcFacts(was);
    EmmyrcFacts(now);
    hide Emmyrc, RegularFields;
    ChangeIsWidestLeaf(PathChanges, was, now);
  }

  /** Going through any configuration on the way never hides how far a change reaches. */
  lemma EmmyrcStepsNeverHideReach(was: Value, between: Value, now: Value)
    requires Emmyrc(was) && Emmyrc(between) && Emmyrc(now)
    ensures Le(ChangeTo(PathChanges, was, now),
        Wider(ChangeTo(PathChanges, was, between), ChangeTo(PathChanges, between, now)))
  {
    TableIsRooted();
    EmmyrcFacts(between);
    EmmyrcIsComplete(between);
    hide Emmyrc, Complete;
    CompleteIsShaped(between);
    ChangeTriangle(PathChanges, was, between, now);
  }
}
