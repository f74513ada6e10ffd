/**
 * Merging a runtime `shadow` group over the operation's static one. The Rust, Go and Python ports
 * merge in different orders; each is proved against one leaf-by-leaf reading of the policy.
 */
module Policy {
  import opened Base
  import opened Json

  type Group = map<string, Json>

  datatype Resolution = Resolution(value: bool, diff: string, invalid: bool, ramp: Option<Json>)

  const OFF := Str("off")

  function Lookup(g: Group, name: string): Option<Json> {
    if name in g then Some(g[name]) else None
  }

  // ------------------------------------------------- what a merged group means

  /** The logging leaves written beside the shorthand; a non-object writes none. */
  function Logging(g: Group): Group {
    if "mismatchLogging" in g && g["mismatchLogging"].Obj? then g["mismatchLogging"].members else map[]
  }

  /** One layer's leaf: written explicitly, else what the layer's shorthand stands for. */
  function LayerLeaf(g: Group, name: string, on: Json, off: Json): Option<Json> {
    if name in Logging(g) then Some(Logging(g)[name])
    else if "logMismatches" in g then Some(if g["logMismatches"] == Bool(true) then on else off)
    else None
  }

  function Either<T>(first: Option<T>, second: Option<T>): Option<T> {
    if first.Some? then first else second
  }

  function Leaf(inherited: Group, incoming: Group, name: string, on: Json, off: Json): Option<Json> {
    Either(LayerLeaf(incoming, name, on, off), LayerLeaf(inherited, name, on, off))
  }

  predicate DiffLevel(v: Json) {
    v.Str? && v.s in ["off", "paths", "values"]
  }

  predicate BadShorthand(g: Group) {
    "logMismatches" in g && !g["logMismatches"].Bool?
  }

  /**
   * The policy's meaning, leaf by leaf: a runtime leaf beats a static one, a leaf beats its own
   * layer's shorthand, an omitted or invalid leaf is off, and one flag reports any invalid input.
   */
  function Meaning(inherited: Group, incoming: Group): Resolution {
    var value := Leaf(inherited, incoming, "value", Bool(true), Bool(false));
    var diff := Leaf(inherited, incoming, "diff", Str("values"), OFF);
    Resolution(
      value == Some(Bool(true)),
      if diff.Some? && DiffLevel(diff.value) then diff.value.s else "off",
      BadShorthand(incoming) || (value.Some? && !value.value.Bool?) || (diff.Some? && !DiffLevel(diff.value)),
      Either(Lookup(incoming, "ramp"), Lookup(inherited, "ramp")))
  }

  /** A runtime group must be an object, and so must its mismatchLogging if present. */
  predicate Shaped(runtime: Json) {
    runtime.Obj? && ("mismatchLogging" in runtime.members ==> runtime.members["mismatchLogging"].Obj?)
  }

  function Reference(inherited: Group, runtime: Option<Json>): Option<Resolution> {
    if runtime.None? then Some(Meaning(inherited, map[]))
    else if !Shaped(runtime.value) then None
    else Some(Meaning(inherited, runtime.value.members))
  }

  /** A runtime shorthand replaces both inherited leaves: nothing static but the ramp shows through. */
  lemma ShorthandHidesInherited(a: Group, b: Group, incoming: Group)
    requires "logMismatches" in incoming && Lookup(a, "ramp") == Lookup(b, "ramp")
    ensures Meaning(a, incoming) == Meaning(b, incoming)
  {
  }

  /** A leaf in one layer: written under mismatchLogging, or not at all. */
  predicate Writes(g: Group, name: string) {
    name in Logging(g)
  }

  /** The shorthand alone: true is everything, false nothing, anything else nothing and an error. */
  lemma ShorthandTable(v: Json)
    ensures Meaning(map[], map["logMismatches" := v]) ==
              if v == Bool(true) then Resolution(true, "values", false, None)
              else Resolution(false, "off", v != Bool(false), None)
  {
    var g: Group := map["logMismatches" := v];
    assert LayerLeaf(map[], "value", Bool(true), Bool(false)) == None;
    assert LayerLeaf(map[], "diff", Str("values"), OFF) == None;
    assert Logging(g) == map[];
  }

  /** A written leaf decides, whatever the shorthands and the other layer say; the levels are off, paths and values. */
  lemma WrittenLeafDecides(inherited: Group, g: Group)
    ensures Writes(g, "value") ==> (Meaning(inherited, g).value <==> Logging(g)["value"] == Bool(true))
    ensures Writes(g, "diff") ==>
              Meaning(inherited, g).diff ==
                if Logging(g)["diff"] in [Str("off"), Str("paths"), Str("values")] then Logging(g)["diff"].s else "off"
    ensures Writes(g, "value") && !Logging(g)["value"].Bool? ==> Meaning(inherited, g).invalid
    ensures Writes(g, "diff") && Logging(g)["diff"] !in [Str("off"), Str("paths"), Str("values")] ==>
              Meaning(inherited, g).invalid
  {
  }

  /** A leaf the runtime layer neither writes nor abbreviates is the static layer's own. */
  lemma UnwrittenLeafInherits(inherited: Group, g: Group)
    requires "logMismatches" !in g
    ensures !Writes(g, "value") ==> Meaning(inherited, g).value == Meaning(map[], inherited).value
    ensures !Writes(g, "diff") ==> Meaning(inherited, g).diff == Meaning(map[], inherited).diff
    ensures Meaning(inherited, g).ramp == if "ramp" in g then Some(g["ramp"]) else Lookup(inherited, "ramp")
  {
    assert LayerLeaf(map[], "value", Bool(true), Bool(false)) == None;
    assert LayerLeaf(map[], "diff", Str("values"), OFF) == None;
  }

  // ------------------------------------------------------- the static group

  datatype StaticLogging = StaticLogging(value: Option<bool>, diff: Option<string>)

  datatype StaticShadow = StaticShadow(
    ramp: Option<real>, logMismatches: Option<bool>, logging: Option<StaticLogging>)

  function Entry(name: string, v: Option<Json>): Group {
    if v.None? then map[] else map[name := v.value]
  }

  function Flag(name: string, b: Option<bool>): Group {
    Entry(name, if b.Some? then Some(Bool(b.value)) else None)
  }

  function StaticLeaves(l: StaticLogging): Group {
    Flag("value", l.value) + Entry("diff", if l.diff.Some? then Some(Str(l.diff.value)) else None)
  }

  /** The JSON form of the typed group. */
  function StaticGroup(s: StaticShadow): Group {
    Entry("ramp", if s.ramp.Some? then Some(Num(s.ramp.value)) else None)
    + Flag("logMismatches", s.logMismatches)
    + Entry("mismatchLogging", if s.logging.Some? then Some(Obj(StaticLeaves(s.logging.value))) else None)
  }

  /** All that typing gives: the shorthand is a boolean and the group is an object. */
  predicate Typed(g: Group) {
    !BadShorthand(g) && ("mismatchLogging" in g ==> g["mismatchLogging"].Obj?)
  }

  lemma StaticGroupTyped(s: StaticShadow)
    ensures Typed(StaticGroup(s))
  {
  }

  /** The static layer of a policy: no shadow group is an empty one. */
  function Inherited(defaults: Option<StaticShadow>): Group {
    if defaults.None? then map[] else StaticGroup(defaults.value)
  }

  lemma InheritedTyped(defaults: Option<StaticShadow>)
    ensures Typed(Inherited(defaults))
  {
    if defaults.Some? {
      StaticGroupTyped(defaults.value);
    }
  }

  // -------------------------------------------------------------------- Rust

  datatype Leaves = Leaves(value: Option<Json>, diff: Option<Json>, invalid: bool)

  method Expand(shadow: Group) returns (leaves: Leaves)
    ensures leaves.value == LayerLeaf(shadow, "value", Bool(true), Bool(false))
    ensures leaves.diff == LayerLeaf(shadow, "diff", Str("values"), OFF)
    ensures leaves.invalid == BadShorthand(shadow)
  {
    leaves := Leaves(None, None, false);
    if "logMismatches" in shadow {
      match shadow["logMismatches"]
      case Bool(true) => leaves := Leaves(Some(Bool(true)), Some(Str("values")), false);
      case Bool(false) => leaves := Leaves(Some(Bool(false)), Some(OFF), false);
      case _ => leaves := Leaves(Some(Bool(false)), Some(OFF), true);
    }
    if "mismatchLogging" in shadow && shadow["mismatchLogging"].Obj? {
      var group := shadow["mismatchLogging"].members;
      if "value" in group {
        leaves := leaves.(value := Some(group["value"]));
      }
      if "diff" in group {
        leaves := leaves.(diff := Some(group["diff"]));
      }
    }
  }

  /** Each leaf is judged on its own; a malformed shorthand is one more invalid input. */
  function Judge(leaves: Leaves, ramp: Option<Json>): Resolution {
    Resolution(
      leaves.value.Some? && leaves.value.value.Bool? && leaves.value.value.b,
      if leaves.diff.Some? && DiffLevel(leaves.diff.value) then leaves.diff.value.s else "off",
      leaves.invalid || (leaves.value.Some? && !leaves.value.value.Bool?)
      || (leaves.diff.Some? && !DiffLevel(leaves.diff.value)),
      ramp)
  }

  /** Reading the merged group alone means what the two layers mean together. */
  predicate Merged(merged: Group, inherited: Group, incoming: Group) {
    Meaning(map[], merged) == Meaning(inherited, incoming)
  }

  /** A group that holds the effective leaves, with the shorthand kept only when malformed. */
  lemma MergedLeaves(merged: Group, inherited: Group, incoming: Group)
    requires Typed(inherited)
    requires Lookup(merged, "ramp") == Either(Lookup(incoming, "ramp"), Lookup(inherited, "ramp"))
    requires Lookup(merged, "logMismatches")
             == if BadShorthand(incoming) then Lookup(incoming, "logMismatches") else None
    requires Lookup(Logging(merged), "value") == Leaf(inherited, incoming, "value", Bool(true), Bool(false))
    requires Lookup(Logging(merged), "diff") == Leaf(inherited, incoming, "diff", Str("values"), OFF)
    ensures Merged(merged, inherited, incoming)
  {
    MergedLeaf(merged, inherited, incoming, "value", Bool(true), Bool(false));
    MergedLeaf(merged, inherited, incoming, "diff", Str("values"), OFF);
    hide Leaf, Logging;
    assert BadShorthand(merged) == BadShorthand(incoming);
  }

  lemma MergedLeaf(merged: Group, inherited: Group, incoming: Group, name: string, on: Json, off: Json)
    requires Lookup(Logging(merged), name) == Leaf(inherited, incoming, name, on, off)
    requires Lookup(merged, "logMismatches")
             == if BadShorthand(incoming) then Lookup(incoming, "logMismatches") else None
    ensures Leaf(map[], merged, name, on, off) == Leaf(inherited, incoming, name, on, off)
  {
    assert LayerLeaf(map[], name, on, off) == None;
  }

  /** Merge into a fresh group; each layer's shorthand expands first. */
  method MergeShadow(inherited: Group, incoming: Group) returns (r: Option<Group>)
    requires Typed(inherited)
    ensures r.Some? == Shaped(Obj(incoming))
    ensures r.Some? ==> Merged(r.value, inherited, incoming)
  {
    var output: Group := map[];
    if "ramp" in incoming {
      output := output["ramp" := incoming["ramp"]];
    } else if "ramp" in inherited {
      output := output["ramp" := inherited["ramp"]];
    }
    if "mismatchLogging" in incoming && !incoming["mismatchLogging"].Obj? {
      return None;
    }
    var base := Expand(inherited);
    var written := Expand(incoming);
    if written.invalid && "logMismatches" in incoming {
      output := output["logMismatches" := incoming["logMismatches"]];
    }
    hide Meaning, Leaf;
    var group: Group := map[];
    var value, diff := Either(written.value, base.value), Either(written.diff, base.diff);
    assert value == Leaf(inherited, incoming, "value", Bool(true), Bool(false)) by { LeafIs(inherited, incoming); }
    assert diff == Leaf(inherited, incoming, "diff", Str("values"), OFF) by { LeafIs(inherited, incoming); }
    if value.Some? {
      group := group["value" := value.value];
    }
    if diff.Some? {
      group := group["diff" := diff.value];
    }
    if group != map[] {
      output := output["mismatchLogging" := Obj(group)];
    }
    MergedLeaves(output, inherited, incoming);
    return Some(output);
  }

  lemma LeafIs(inherited: Group, incoming: Group)
    ensures forall name, on, off :: Leaf(inherited, incoming, name, on, off)
              == Either(LayerLeaf(incoming, name, on, off), LayerLeaf(inherited, name, on, off))
  {
  }

  /** Merge, then expand the merged group again. */
  method RustResolve(defaults: Option<StaticShadow>, runtime: Option<Json>) returns (r: Option<Resolution>)
    ensures r == Reference(Inherited(defaults), runtime)
  {
    var inherited := Inherited(defaults);
    InheritedTyped(defaults);
    hide Inherited;
    var merged := inherited;
    if runtime.Some? {
      if !runtime.value.Obj? {
        return None;
      }
      var output := MergeShadow(inherited, runtime.value.members);
      if output.None? {
        return None;
      }
      merged := output.value;
    }
    ReadAlone(inherited);
    var leaves := Expand(merged);
    return Some(Judge(leaves, Lookup(merged, "ramp")));
  }

  lemma ReadAlone(g: Group)
    requires Typed(g)
    ensures Meaning(map[], g) == Meaning(g, map[])
  {
    assert LayerLeaf(map[], "value", Bool(true), Bool(false)) == None;
    assert LayerLeaf(map[], "diff", Str("values"), OFF) == None;
  }

  // ---------------------------------------------------------------------- Go

  /** Expand both layers, overlay the leaves, judge them: no second expansion. */
  method GoResolve(defaults: Option<StaticShadow>, runtime: Option<Json>) returns (r: Option<Resolution>)
    ensures r == Reference(Inherited(defaults), runtime)
  {
    var inherited := Inherited(defaults);
    InheritedTyped(defaults);
    hide Inherited;
    var logging := Expand(inherited);
    var merged := inherited;
    if runtime.Some? {
      if !runtime.value.Obj? {
        return None;
      }
      var incoming := runtime.value.members;
      if "mismatchLogging" in incoming && !incoming["mismatchLogging"].Obj? {
        return None;
      }
      var written := Expand(incoming);
      if written.value.None? {
        written := written.(value := logging.value);
      }
      if written.diff.None? {
        written := written.(diff := logging.diff);
      }
      logging := written;
      if "ramp" in incoming {
        merged := merged["ramp" := incoming["ramp"]];
      }
    }
    return Some(Judge(logging, Lookup(merged, "ramp")));
  }

  // ------------------------------------------------------------------ Python

  /** The group's leaves as a mapping; "invalid" is present only for a malformed shorthand. */
  method PyExpand(shadow: Group) returns (expanded: Group)
    requires "mismatchLogging" in shadow ==> shadow["mismatchLogging"].Obj?
    ensures Lookup(expanded, "value") == LayerLeaf(shadow, "value", Bool(true), Bool(false))
    ensures Lookup(expanded, "diff") == LayerLeaf(shadow, "diff", Str("values"), OFF)
    ensures ("invalid" in expanded) == BadShorthand(shadow)
  {
    expanded := map[];
    if "logMismatches" in shadow {
      var shorthand := shadow["logMismatches"];
      if shorthand == Bool(true) {
        expanded := map["value" := Bool(true), "diff" := Str("values")];
      } else if shorthand == Bool(false) {
        expanded := map["value" := Bool(false), "diff" := OFF];
      } else {
        expanded := map["value" := Bool(false), "diff" := OFF, "invalid" := Bool(true)];
      }
    }
    if "mismatchLogging" in shadow {
      var group := shadow["mismatchLogging"].members;
      if "value" in group {
        expanded := expanded["value" := group["value"]];
      }
      if "diff" in group {
        expanded := expanded["diff" := group["diff"]];
      }
    }
  }

  /** A runtime field by its snake_case name, else by the portable one. */
  function Named(g: Group, native: string, portable: string): Option<Json> {
    Either(Lookup(g, native), Lookup(g, portable))
  }

  /** The group Python reads: snake_case names of the two logging fields win over the portable ones. */
  function Renamed(g: Group): Group {
    Entry("ramp", Lookup(g, "ramp"))
    + Entry("logMismatches", Named(g, "log_mismatches", "logMismatches"))
    + Entry("mismatchLogging", Named(g, "mismatch_logging", "mismatchLogging"))
  }

  lemma RenamedFields(g: Group)
    ensures Lookup(Renamed(g), "ramp") == Lookup(g, "ramp")
    ensures Lookup(Renamed(g), "logMismatches") == Named(g, "log_mismatches", "logMismatches")
    ensures Lookup(Renamed(g), "mismatchLogging") == Named(g, "mismatch_logging", "mismatchLogging")
  {
  }

  function PyRuntime(runtime: Json): Json {
    if runtime.Obj? then Obj(Renamed(runtime.members)) else runtime
  }

  method PyLeaves(group: Group) returns (leaves: Group)
    ensures Lookup(leaves, "value") == Lookup(group, "value") && Lookup(leaves, "diff") == Lookup(group, "diff")
  {
    leaves := map[];
    if "value" in group {
      leaves := leaves["value" := group["value"]];
    }
    if "diff" in group {
      leaves := leaves["diff" := group["diff"]];
    }
  }

  /** Capture only the known leaves; anything malformed in shape is an error. */
  method PyNormalize(runtime: Json) returns (r: Option<Group>)
    ensures r.Some? == Shaped(PyRuntime(runtime))
    ensures r.Some? ==> "mismatchLogging" in r.value ==> r.value["mismatchLogging"].Obj?
    ensures r.Some? ==>
              forall inherited :: Meaning(inherited, r.value) == Meaning(inherited, PyRuntime(runtime).members)
  {
    if !runtime.Obj? {
      return None;
    }
    var value := runtime.members;
    RenamedFields(value);
    hide Renamed, Meaning;
    var result: Group := map[];
    if "ramp" in value {
      result := result["ramp" := value["ramp"]];
    }
    if "log_mismatches" in value {
      result := result["logMismatches" := value["log_mismatches"]];
    } else if "logMismatches" in value {
      result := result["logMismatches" := value["logMismatches"]];
    }
    var logging := None;
    if "mismatch_logging" in value {
      logging := Some(value["mismatch_logging"]);
    } else if "mismatchLogging" in value {
      logging := Some(value["mismatchLogging"]);
    }
    if logging.Some? {
      if !logging.value.Obj? {
        return None;
      }
      var leaves := PyLeaves(logging.value.members);
      result := result["mismatchLogging" := Obj(leaves)];
    }
    SameLeaves(result, Renamed(value));
    return Some(result);
  }

  method PyMergeShadow(inherited: Group, runtime: Group) returns (merged: Group)
    requires Typed(inherited) && Shaped(Obj(runtime))
    ensures Merged(merged, inherited, runtime) && Shaped(Obj(merged))
  {
    merged := map[];
    if "ramp" in runtime {
      merged := merged["ramp" := runtime["ramp"]];
    } else if "ramp" in inherited {
      merged := merged["ramp" := inherited["ramp"]];
    }
    var base := PyExpand(inherited);
    var written := PyExpand(runtime);
    if "invalid" in written {
      merged := merged["logMismatches" := runtime["logMismatches"]];
    }
    hide Meaning, Leaf;
    LeafIs(inherited, runtime);
    var group: Group := map[];
    if "value" in written || "value" in base {
      group := group["value" := if "value" in written then written["value"] else base["value"]];
    }
    if "diff" in written || "diff" in base {
      group := group["diff" := if "diff" in written then written["diff"] else base["diff"]];
    }
    assert Lookup(group, "value") == Either(Lookup(written, "value"), Lookup(base, "value"));
    assert Lookup(group, "diff") == Either(Lookup(written, "diff"), Lookup(base, "diff"));
    if group != map[] {
      merged := merged["mismatchLogging" := Obj(group)];
    }
    MergedLeaves(merged, inherited, runtime);
  }

  method PyJudge(shadow: Group) returns (r: Resolution)
    requires "mismatchLogging" in shadow ==> shadow["mismatchLogging"].Obj?
    ensures r == Meaning(map[], shadow)
  {
    var leaves := PyExpand(shadow);
    var value := if "value" in leaves then leaves["value"] else Bool(false);
    var diff := if "diff" in leaves then leaves["diff"] else OFF;
    assert LayerLeaf(map[], "value", Bool(true), Bool(false)) == None;
    assert LayerLeaf(map[], "diff", Str("values"), OFF) == None;
    return Resolution(
      value.Bool? && value.b,
      if DiffLevel(diff) then diff.s else "off",
      "invalid" in leaves || !value.Bool? || !DiffLevel(diff),
      Lookup(shadow, "ramp"));
  }

  /** The same reading of the policy, of the group as Python names its fields. */
  function PyReference(inherited: Group, runtime: Option<Json>): Option<Resolution> {
    Reference(inherited, if runtime.Some? then Some(PyRuntime(runtime.value)) else None)
  }

  /** Without a static policy the runtime group is read as it is; otherwise merge first. */
  method PyResolve(base: Option<Option<StaticShadow>>, runtime: Option<Json>) returns (r: Option<Resolution>)
    ensures r == PyReference(if base.Some? then Inherited(base.value) else map[], runtime)
  {
    var overlay: Option<Group> := None;
    if runtime.Some? {
      overlay := PyNormalize(runtime.value);
      if overlay.None? {
        return None;
      }
    }
    var shadow: Group := map[];
    if base.None? && overlay.Some? {
      shadow := overlay.value;
    } else if base.Some? {
      InheritedTyped(base.value);
      shadow := PyMergeShadow(Inherited(base.value), if overlay.Some? then overlay.value else map[]);
    }
    var judged := PyJudge(shadow);
    return Some(judged);
  }

  lemma SameLeaves(a: Group, b: Group)
    requires Lookup(a, "ramp") == Lookup(b, "ramp") && Lookup(a, "logMismatches") == Lookup(b, "logMismatches")
    requires Lookup(Logging(a), "value") == Lookup(Logging(b), "value")
    requires Lookup(Logging(a), "diff") == Lookup(Logging(b), "diff")
    ensures forall inherited :: Meaning(inherited, a) == Meaning(inherited, b)
  {
    forall inherited ensures Meaning(inherited, a) == Meaning(inherited, b) {
      SameLayer(a, b, "value", Bool(true), Bool(false));
      SameLayer(a, b, "diff", Str("values"), OFF);
    }
  }

  lemma SameLayer(a: Group, b: Group, name: string, on: Json, off: Json)
    requires Lookup(a, "logMismatches") == Lookup(b, "logMismatches")
    requires Lookup(Logging(a), name) == Lookup(Logging(b), name)
    ensures LayerLeaf(a, name, on, off) == LayerLeaf(b, name, on, off)
  {
  }

  // ------------------------------------------------------- when the ports agree

  /** What a present leaf or an omitted one turns into, and whether it is invalid. */
  predicate SameValue(a: Option<Json>, b: Option<Json>) {
    a.Some? == b.Some? && (a == Some(Bool(true)) <==> b == Some(Bool(true)))
  }

  function LevelOf(v: Option<Json>): Option<string> {
    if v.None? then None else Some(if DiffLevel(v.value) then v.value.s else "off")
  }

  /** The group alone owes a configuration error. */
  predicate Flagged(g: Group) {
    var value, diff := LayerLeaf(g, "value", Bool(true), Bool(false)), LayerLeaf(g, "diff", Str("values"), OFF);
    BadShorthand(g) || (value.Some? && !value.value.Bool?) || (diff.Some? && !DiffLevel(diff.value))
  }

  /** Read by both sets of names, the group writes the same leaves with the same effect. */
  predicate SameByEitherName(g: Group) {
    var r := Renamed(g);
    && Shaped(Obj(g)) == Shaped(Obj(r))
    && (Shaped(Obj(g)) ==>
          && SameValue(LayerLeaf(g, "value", Bool(true), Bool(false)), LayerLeaf(r, "value", Bool(true), Bool(false)))
          && LevelOf(LayerLeaf(g, "diff", Str("values"), OFF)) == LevelOf(LayerLeaf(r, "diff", Str("values"), OFF))
          && Flagged(g) == Flagged(r))
  }

  /** Rust and Go on one side, Python on the other, for every static group. */
  ghost predicate PortsAgree(runtime: Option<Json>) {
    forall inherited :: Typed(inherited) ==> Reference(inherited, runtime) == PyReference(inherited, runtime)
  }

  const ALL_ON: Group := map["logMismatches" := Bool(true)]

  /** The ports as they are called, for every typed static policy. */
  ghost predicate PortsAgreeOnDefaults(runtime: Option<Json>) {
    forall defaults :: Reference(Inherited(defaults), runtime) == PyReference(Inherited(defaults), runtime)
  }

  /** The three ports resolve a runtime group alike exactly when its snake_case names change nothing. */
  lemma PortsAgreeExactly(runtime: Option<Json>)
    ensures PortsAgree(runtime) <==> (runtime.Some? && runtime.value.Obj? ==> SameByEitherName(runtime.value.members))
    ensures PortsAgreeOnDefaults(runtime) <==> PortsAgree(runtime)
  {
    forall defaults ensures Typed(Inherited(defaults)) {
      InheritedTyped(defaults);
    }
    AllOnIsStatic();
    hide Meaning, SameByEitherName, Inherited, Typed, Shaped, PyRuntime;
    if runtime.Some? && runtime.value.Obj? {
      var g := runtime.value.members;
      if SameByEitherName(g) {
        forall inherited | Typed(inherited) ensures Reference(inherited, runtime) == PyReference(inherited, runtime) {
          if Shaped(Obj(g)) {
            SameMeaning(inherited, g);
          }
        }
      } else {
        Distinguished(g);
      }
    }
  }

  lemma AllOnIsStatic()
    ensures Inherited(None) == map[] && Inherited(Some(StaticShadow(None, Some(true), None))) == ALL_ON
    ensures Typed(map[]) && Typed(ALL_ON)
  {
  }

  lemma SameMeaning(inherited: Group, g: Group)
    requires SameByEitherName(g) && Shaped(Obj(g))
    ensures Meaning(inherited, g) == Meaning(inherited, Renamed(g))
  {
    RenamedFields(g);
    hide Renamed, LayerLeaf, Logging;
  }

  /** A group that reads differently is told apart by no static policy or by a static shorthand. */
  lemma Distinguished(g: Group)
    requires !SameByEitherName(g)
    ensures || Reference(map[], Some(Obj(g))) != PyReference(map[], Some(Obj(g)))
            || Reference(ALL_ON, Some(Obj(g))) != PyReference(ALL_ON, Some(Obj(g)))
  {
    StaticLayer("value", Bool(true), Bool(false));
    StaticLayer("diff", Str("values"), OFF);
    hide Renamed, LayerLeaf;
  }

  lemma StaticLayer(name: string, on: Json, off: Json)
    ensures LayerLeaf(map[], name, on, off) == None && LayerLeaf(ALL_ON, name, on, off) == Some(on)
  {
  }

  /** Portable names alone: all three ports agree. */
  lemma PortableNamesAgree(runtime: Json)
    requires runtime.Obj? ==> "log_mismatches" !in runtime.members && "mismatch_logging" !in runtime.members
    ensures PortsAgree(Some(runtime))
  {
    PortsAgreeExactly(Some(runtime));
    if runtime.Obj? {
      var g := runtime.members;
      RenamedFields(g);
      hide Renamed;
      SameLayer(Renamed(g), g, "value", Bool(true), Bool(false));
      SameLayer(Renamed(g), g, "diff", Str("values"), OFF);
      hide LayerLeaf, PortsAgree;
    }
  }

  /** A shorthand written only in snake_case is read by Python alone, whatever its value. */
  lemma SnakeCaseDiverges(v: Json)
    ensures !PortsAgree(Some(Obj(map["log_mismatches" := v])))
    ensures v == Bool(true) ==>
              var runtime := Some(Obj(map["log_mismatches" := v]));
              && Reference(map[], runtime) == Some(Resolution(false, "off", false, None))
              && PyReference(map[], runtime) == Some(Resolution(true, "values", false, None))
  {
    var g: Group := map["log_mismatches" := v];
    PortsAgreeExactly(Some(Obj(g)));
    assert LayerLeaf(g, "value", Bool(true), Bool(false)) == None;
    assert LayerLeaf(g, "diff", Str("values"), OFF) == None;
    assert Lookup(Renamed(g), "logMismatches") == Some(v) && Lookup(Renamed(g), "mismatchLogging") == None;
  }

  /** A snake_case group that is not an object fails in Python and is ignored by the others. */
  lemma SnakeCaseGroupFails(v: Json, inherited: Group)
    requires !v.Obj?
    ensures PyReference(inherited, Some(Obj(map["mismatch_logging" := v]))) == None
    ensures Reference(inherited, Some(Obj(map["mismatch_logging" := v]))).Some?
  {
    assert Lookup(Renamed(map["mismatch_logging" := v]), "mismatchLogging") == Some(v);
  }
}
