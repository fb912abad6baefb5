/**
 * Adaptive layer colouring: visible map layers are grouped by their
 * lower-cased linkage property, and each layer is given a colouring role
 * (primary, secondary or neutral) from its own override, the dashboard
 * strategy and the make-up of its group.
 */
module LayerColoring {
  import opened Wrappers
  import opened JsText
  import Sequences

  datatype Role = Primary | Secondary | Neutral

  /** A layer's `colorByRole`: a fixed role, or `auto`. */
  datatype ColorByRole = Fixed(role: Role) | Auto

  datatype Strategy = AutoStrategy | ExplicitStrategy | AllStrategy

  /** The fields of a layer configuration that colouring reads; `geoProperty` is `linkage?.geoProperty`. */
  datatype Layer = Layer(name: string, layerType: string, geoProperty: Option<string>, colorByRole: Option<ColorByRole>)

  datatype LayerGroup = LayerGroup(geoProperty: string, layers: seq<Layer>, hasArc: bool, geometryCount: nat)

  datatype LayerColoringRole = LayerColoringRole(layerName: string, role: Role, reason: Reason)

  predicate IsArc(layer: Layer) { layer.layerType == "arc" }

  /** The group key: the lower-cased `geoProperty`, or `__standalone_<name>` when it is absent or empty. */
  function GroupKey(layer: Layer): (key: string)
    ensures layer.geoProperty.Some? && layer.geoProperty.value != "" ==> key == ToLower(layer.geoProperty.value)
    ensures layer.geoProperty.None? || layer.geoProperty.value == "" ==> key == "__standalone_" + layer.name
  {
    if layer.geoProperty.Some? && ToLower(layer.geoProperty.value) != "" then ToLower(layer.geoProperty.value)
    else "__standalone_" + layer.name
  }

  // ---------------------------------------------------------------------
  // Grouping

  /** One step of `computeLayerGroups`: the layer joins its group, created empty if new. */
  function AddToGroups(groups: map<string, LayerGroup>, layer: Layer): map<string, LayerGroup> {
    var key := GroupKey(layer);
    var withKey := if key in groups then groups else groups[key := LayerGroup(key, [], false, 0)];
    var g := withKey[key].(layers := withKey[key].layers + [layer]);
    withKey[key := if IsArc(layer) then g.(hasArc := true) else g.(geometryCount := g.geometryCount + 1)]
  }

  /** What `computeLayerGroups(layers)` returns. */
  function Groups(layers: seq<Layer>): map<string, LayerGroup> {
    if layers == [] then map[]
    else AddToGroups(Groups(layers[..|layers| - 1]), layers[|layers| - 1])
  }

  /** The layers of the group with this key, in input order. */
  function Members(layers: seq<Layer>, key: string): seq<Layer> {
    Sequences.Filter(layers, (l: Layer) => GroupKey(l) == key)
  }

  function NonArcs(layers: seq<Layer>): seq<Layer> {
    Sequences.Filter(layers, (l: Layer) => !IsArc(l))
  }

  /** What a group built from `layers` says about the key `key`. */
  predicate GroupDescribes(layers: seq<Layer>, key: string, g: LayerGroup) {
    && g.geoProperty == key
    && g.layers == Members(layers, key)
    && (g.hasArc <==> exists l :: l in g.layers && IsArc(l))
    && g.geometryCount == |NonArcs(g.layers)|
  }

  /** The keys of the groups are exactly the keys of the layers. */
  lemma {:induction false} GroupsKeys(layers: seq<Layer>)
    ensures forall key :: key in Groups(layers) <==> exists l :: l in layers && GroupKey(l) == key
    decreases |layers|
  {
    if layers != [] {
      var init := layers[..|layers| - 1];
      var x := layers[|layers| - 1];
      assert layers == init + [x];
      GroupsKeys(init);
      forall key ensures key in Groups(layers) <==> exists l :: l in layers && GroupKey(l) == key {
        if key in Groups(init) {
          var l :| l in init && GroupKey(l) == key;
          assert l in layers;
        } else if key != GroupKey(x) {
          forall l | l in layers ensures GroupKey(l) != key {
            if l != x {
              assert l in init;
            }
          }
        }
      }
    }
  }

  /** A key no earlier layer has selects nothing from them. */
  lemma MembersNone(layers: seq<Layer>, key: string)
    requires forall l :: l in layers ==> GroupKey(l) != key
    ensures Members(layers, key) == []
  {
    forall i | 0 <= i < |layers| ensures GroupKey(layers[i]) != key {
      assert layers[i] in layers;
    }
    Sequences.FilterNone(layers, (l: Layer) => GroupKey(l) == key);
  }

  /** Adding one layer keeps every group described by the layers seen so far. */
  lemma AddDescribes(init: seq<Layer>, before: map<string, LayerGroup>, x: Layer, key: string)
    requires key in before ==> GroupDescribes(init, key, before[key])
    requires key !in before ==> forall l :: l in init ==> GroupKey(l) != key
    requires key in AddToGroups(before, x)
    ensures GroupDescribes(init + [x], key, AddToGroups(before, x)[key])
  {
    if key != GroupKey(x) {
      AddElsewhere(init, before, x, key);
    } else if key in before {
      AddJoins(init, before[key], x, key);
    } else {
      MembersNone(init, key);
      AddJoins(init, LayerGroup(key, [], false, 0), x, key);
    }
  }

  /** A layer under another key leaves the group as it was. */
  lemma AddElsewhere(init: seq<Layer>, before: map<string, LayerGroup>, x: Layer, key: string)
    requires key in before && GroupDescribes(init, key, before[key]) && GroupKey(x) != key
    ensures key in AddToGroups(before, x) && AddToGroups(before, x)[key] == before[key]
    ensures GroupDescribes(init + [x], key, before[key])
  {
    Sequences.FilterSnoc(init, x, (l: Layer) => GroupKey(l) == key);
  }

  /** A layer joining the group of its key keeps it described. */
  lemma AddJoins(init: seq<Layer>, g: LayerGroup, x: Layer, key: string)
    requires GroupDescribes(init, key, g) && GroupKey(x) == key
    ensures GroupDescribes(init + [x], key, g.(layers := g.layers + [x], hasArc := g.hasArc || IsArc(x),
                                              geometryCount := g.geometryCount + if IsArc(x) then 0 else 1))
  {
    Sequences.FilterSnoc(init, x, (l: Layer) => GroupKey(l) == key);
    Sequences.FilterSnoc(g.layers, x, (l: Layer) => !IsArc(l));
  }

  /**
   * Every layer lands in exactly one group, the one under its key; each
   * group lists its layers in input order, `hasArc` says whether one is an
   * arc, and `geometryCount` counts the others.
   */
  lemma {:induction false} GroupsCharacterized(layers: seq<Layer>)
    ensures forall key :: key in Groups(layers) <==> exists l :: l in layers && GroupKey(l) == key
    ensures forall key :: key in Groups(layers) ==> GroupDescribes(layers, key, Groups(layers)[key])
    decreases |layers|
  {
    GroupsKeys(layers);
    if layers != [] {
      var init := layers[..|layers| - 1];
      var x := layers[|layers| - 1];
      assert layers == init + [x];
      GroupsCharacterized(init);
      forall key | key in Groups(layers) ensures GroupDescribes(layers, key, Groups(layers)[key]) {
        AddDescribes(init, Groups(init), x, key);
      }
    }
  }

  /** The total number of members of the groups listed in `keys`. */
  function MemberTotal(layers: seq<Layer>, keys: seq<string>): nat {
    if keys == [] then 0
    else MemberTotal(layers, keys[..|keys| - 1]) + |Members(layers, keys[|keys| - 1])|
  }

  lemma {:induction false} MemberTotalOfNone(keys: seq<string>)
    ensures MemberTotal([], keys) == 0
    decreases |keys|
  {
    if keys != [] {
      MemberTotalOfNone(keys[..|keys| - 1]);
    }
  }

  /** One more layer adds one member to the duplicate-free `keys` exactly when its key is listed. */
  lemma {:induction false} MemberTotalSnoc(layers: seq<Layer>, x: Layer, keys: seq<string>)
    requires Sequences.NoDuplicates(keys)
    ensures MemberTotal(layers + [x], keys) == MemberTotal(layers, keys) + (if GroupKey(x) in keys then 1 else 0)
    decreases |keys|
  {
    if keys != [] {
      var n := |keys|;
      var init := keys[..n - 1];
      MemberTotalSnoc(layers, x, init);
      Sequences.FilterSnoc(layers, x, (l: Layer) => GroupKey(l) == keys[n - 1]);
      assert keys == init + [keys[n - 1]];
      forall k | 0 <= k < n - 1 ensures init[k] != keys[n - 1] {
        assert init[k] == keys[k];
      }
    }
  }

  /** When the duplicate-free `keys` cover every layer's key, their members add up to all the layers. */
  lemma {:induction false} MemberTotalAll(layers: seq<Layer>, keys: seq<string>)
    requires Sequences.NoDuplicates(keys)
    requires forall l :: l in layers ==> GroupKey(l) in keys
    ensures MemberTotal(layers, keys) == |layers|
    decreases |layers|
  {
    if layers == [] {
      MemberTotalOfNone(keys);
    } else {
      var n := |layers|;
      var init := layers[..n - 1];
      assert layers == init + [layers[n - 1]];
      assert forall l :: l in init ==> l in layers;
      MemberTotalAll(init, keys);
      MemberTotalSnoc(init, layers[n - 1], keys);
    }
  }

  /** The total size of the groups listed in `keys`. */
  function GroupSizeTotal(groups: map<string, LayerGroup>, keys: seq<string>): nat {
    if keys == [] then 0
    else
      var key := keys[|keys| - 1];
      GroupSizeTotal(groups, keys[..|keys| - 1]) + (if key in groups then |groups[key].layers| else 0)
  }

  lemma {:induction false} GroupSizeTotalIsMemberTotal(layers: seq<Layer>, keys: seq<string>)
    requires forall key :: key in keys ==> key in Groups(layers) && GroupDescribes(layers, key, Groups(layers)[key])
    ensures GroupSizeTotal(Groups(layers), keys) == MemberTotal(layers, keys)
    decreases |keys|
  {
    if keys != [] {
      var init := keys[..|keys| - 1];
      assert forall key :: key in init ==> key in keys;
      GroupSizeTotalIsMemberTotal(layers, init);
      assert keys[|keys| - 1] in keys;
    }
  }

  /**
   * The group sizes add up to the number of layers: listing each group once,
   * in any order, counts every layer exactly once.
   */
  lemma GroupSizesSum(layers: seq<Layer>, keys: seq<string>)
    requires Sequences.NoDuplicates(keys)
    requires forall key :: key in keys <==> key in Groups(layers)
    ensures GroupSizeTotal(Groups(layers), keys) == |layers|
  {
    GroupsCharacterized(layers);
    GroupSizeTotalIsMemberTotal(layers, keys);
    forall l | l in layers ensures GroupKey(l) in keys {
      assert GroupKey(l) in Groups(layers);
    }
    MemberTotalAll(layers, keys);
  }

  // ---------------------------------------------------------------------
  // Roles

  function RoleName(r: Role): string {
    match r
    case Primary => "primary"
    case Secondary => "secondary"
    case Neutral => "neutral"
  }

  /** Why a layer got its role; `ReasonText` spells out the message the dashboard shows. */
  datatype Reason =
    | ExplicitOverride(role: Role)
    | AllLayersPrimary
    | ExplicitNoOverride
    | ArcWithGeometry
    | GeometryWithArc
    | ArcAlone
    | SingleGeometry
    | SeveralGeometries

  function ReasonText(reason: Reason): string {
    match reason
    case ExplicitOverride(role) => "Explicit colorByRole: " + RoleName(role)
    case AllLayersPrimary => "Strategy: all layers get primary"
    case ExplicitNoOverride => "Strategy: explicit - no colorByRole set"
    case ArcWithGeometry => "Auto: arc layer is primary when geometry layers present"
    case GeometryWithArc => "Auto: geometry layer is neutral when arc layer present"
    case ArcAlone => "Auto: arc layer alone is primary"
    case SingleGeometry => "Auto: single geometry layer is primary"
    case SeveralGeometries => "Auto: multiple geometry layers without arc all get primary"
  }

  /**
   * `computeLayerRole`: an override other than `auto` wins; then `all`
   * gives primary and `explicit` neutral; under `auto` only a non-arc layer
   * in a group that also holds an arc is neutral.
   */
  function ComputeLayerRole(layer: Layer, group: LayerGroup, strategy: Strategy): (r: LayerColoringRole)
    ensures r.layerName == layer.name
    ensures layer.colorByRole.Some? && layer.colorByRole.value.Fixed? ==> r.role == layer.colorByRole.value.role
    ensures (layer.colorByRole.None? || layer.colorByRole.value.Auto?) ==>
      && (strategy == AllStrategy ==> r.role == Primary)
      && (strategy == ExplicitStrategy ==> r.role == Neutral)
      && (strategy == AutoStrategy ==>
            (r.role == Neutral <==> group.hasArc && group.geometryCount > 0 && !IsArc(layer))
            && r.role != Secondary)
  {
    if layer.colorByRole.Some? && layer.colorByRole.value.Fixed? then
      var role := layer.colorByRole.value.role;
      LayerColoringRole(layer.name, role, ExplicitOverride(role))
    else if strategy == AllStrategy then
      LayerColoringRole(layer.name, Primary, AllLayersPrimary)
    else if strategy == ExplicitStrategy then
      LayerColoringRole(layer.name, Neutral, ExplicitNoOverride)
    else if group.hasArc && group.geometryCount > 0 then
      if IsArc(layer) then LayerColoringRole(layer.name, Primary, ArcWithGeometry)
      else LayerColoringRole(layer.name, Neutral, GeometryWithArc)
    else if IsArc(layer) then
      LayerColoringRole(layer.name, Primary, ArcAlone)
    else if group.geometryCount == 1 then
      LayerColoringRole(layer.name, Primary, SingleGeometry)
    else
      LayerColoringRole(layer.name, Primary, SeveralGeometries)
  }

  /** The roles of `layers`, each computed against its group; a later layer of the same name overwrites. */
  function RolesOver(layers: seq<Layer>, groups: map<string, LayerGroup>, strategy: Strategy): map<string, LayerColoringRole>
    requires forall l :: l in layers ==> GroupKey(l) in groups
  {
    if layers == [] then map[]
    else
      var x := layers[|layers| - 1];
      RolesOver(layers[..|layers| - 1], groups, strategy)[x.name := ComputeLayerRole(x, groups[GroupKey(x)], strategy)]
  }

  lemma GroupKeysPresent(layers: seq<Layer>)
    ensures forall l :: l in layers ==> GroupKey(l) in Groups(layers)
  {
    GroupsCharacterized(layers);
  }

  /** What `computeAllLayerRoles(visibleLayers, strategy)` returns; `None` stands for a null argument. */
  function AllRoles(visibleLayers: Option<seq<Layer>>, strategy: Strategy): map<string, LayerColoringRole> {
    if visibleLayers.None? || |visibleLayers.value| == 0 then map[]
    else
      var layers := visibleLayers.value;
      GroupKeysPresent(layers);
      RolesOver(layers, Groups(layers), strategy)
  }

  /** One entry per layer name, and each entry is about that name. */
  lemma {:induction false} RolesOverNames(layers: seq<Layer>, groups: map<string, LayerGroup>, strategy: Strategy)
    requires forall l :: l in layers ==> GroupKey(l) in groups
    ensures forall name :: name in RolesOver(layers, groups, strategy) <==> exists l :: l in layers && l.name == name
    ensures forall name :: name in RolesOver(layers, groups, strategy) ==> RolesOver(layers, groups, strategy)[name].layerName == name
    decreases |layers|
  {
    if layers != [] {
      var init := layers[..|layers| - 1];
      var x := layers[|layers| - 1];
      assert layers == init + [x];
      RolesOverNames(init, groups, strategy);
      forall name | name in RolesOver(init, groups, strategy) ensures exists l :: l in layers && l.name == name {
        var l :| l in init && l.name == name;
        assert l in layers;
      }
    }
  }

  /** With distinct names, each layer's entry is its role within its own group. */
  lemma {:induction false} RolesOverDistinct(layers: seq<Layer>, groups: map<string, LayerGroup>, strategy: Strategy, i: nat)
    requires forall l :: l in layers ==> GroupKey(l) in groups
    requires forall a, b :: 0 <= a < b < |layers| ==> layers[a].name != layers[b].name
    requires i < |layers|
    ensures layers[i].name in RolesOver(layers, groups, strategy)
    ensures RolesOver(layers, groups, strategy)[layers[i].name] == ComputeLayerRole(layers[i], groups[GroupKey(layers[i])], strategy)
    decreases |layers|
  {
    var n := |layers|;
    var init := layers[..n - 1];
    if i < n - 1 {
      assert init[i] == layers[i];
      RolesOverDistinct(init, groups, strategy, i);
    }
  }

  /** `computeAllLayerRoles`: empty for no layers, otherwise one entry per distinct layer name, about that name. */
  lemma AllRolesShape(visibleLayers: Option<seq<Layer>>, strategy: Strategy)
    ensures visibleLayers.None? || visibleLayers.value == [] ==> AllRoles(visibleLayers, strategy) == map[]
    ensures visibleLayers.Some? ==> forall name :: name in AllRoles(visibleLayers, strategy) <==>
      exists l :: l in visibleLayers.value && l.name == name
    ensures forall name :: name in AllRoles(visibleLayers, strategy) ==> AllRoles(visibleLayers, strategy)[name].layerName == name
  {
    if visibleLayers.Some? && |visibleLayers.value| > 0 {
      GroupKeysPresent(visibleLayers.value);
      RolesOverNames(visibleLayers.value, Groups(visibleLayers.value), strategy);
    }
  }

  /** A group's flags, read back as facts about the layers with its key. */
  lemma GroupFlags(layers: seq<Layer>, key: string)
    requires key in Groups(layers)
    ensures Groups(layers)[key].hasArc <==> exists l :: l in layers && GroupKey(l) == key && IsArc(l)
    ensures Groups(layers)[key].geometryCount > 0 <==> exists l :: l in layers && GroupKey(l) == key && !IsArc(l)
  {
    GroupsCharacterized(layers);
    var g := Groups(layers)[key];
    assert GroupDescribes(layers, key, g);
    Sequences.FilterMembers(layers, (l: Layer) => GroupKey(l) == key);
    Sequences.FilterMembers(g.layers, (l: Layer) => !IsArc(l));
    if exists l :: l in layers && GroupKey(l) == key && IsArc(l) {
      var l :| l in layers && GroupKey(l) == key && IsArc(l);
      assert l in g.layers;
    }
    if exists l :: l in layers && GroupKey(l) == key && !IsArc(l) {
      var l :| l in layers && GroupKey(l) == key && !IsArc(l);
      assert l in g.layers;
      assert l in NonArcs(g.layers);
    }
    if g.geometryCount > 0 {
      var l := NonArcs(g.layers)[0];
      assert l in NonArcs(g.layers);
    }
  }

  /**
   * Under `auto`, with distinct names, a layer without an override is
   * neutral exactly when it is not an arc and its group holds an arc and a
   * geometry layer.
   */
  lemma AutoNeutralOnlyInMixedGroups(layers: seq<Layer>, i: nat)
    requires forall a, b :: 0 <= a < b < |layers| ==> layers[a].name != layers[b].name
    requires i < |layers| && (layers[i].colorByRole.None? || layers[i].colorByRole.value.Auto?)
    ensures layers[i].name in AllRoles(Some(layers), AutoStrategy)
    ensures AllRoles(Some(layers), AutoStrategy)[layers[i].name].role == Neutral <==>
      !IsArc(layers[i])
      && (exists l :: l in layers && GroupKey(l) == GroupKey(layers[i]) && IsArc(l))
      && (exists l :: l in layers && GroupKey(l) == GroupKey(layers[i]) && !IsArc(l))
  {
    GroupKeysPresent(layers);
    RolesOverDistinct(layers, Groups(layers), AutoStrategy, i);
    assert layers[i] in layers;
    GroupFlags(layers, GroupKey(layers[i]));
  }

  // ---------------------------------------------------------------------
  // The imperative entry points

  /** `computeLayerGroups`: builds the groups in one pass over the layers. */
  method ComputeLayerGroups(visibleLayers: seq<Layer>) returns (groups: map<string, LayerGroup>)
    ensures groups == Groups(visibleLayers)
  {
    groups := map[];
    var i := 0;
    while i < |visibleLayers|
      invariant 0 <= i <= |visibleLayers|
      invariant groups == Groups(visibleLayers[..i])
    {
      var layer := visibleLayers[i];
      var geoProperty := GroupKey(layer);
      if geoProperty !in groups {
        groups := groups[geoProperty := LayerGroup(geoProperty, [], false, 0)];
      }
      var group := groups[geoProperty];
      group := group.(layers := group.layers + [layer]);
      if IsArc(layer) {
        group := group.(hasArc := true);
      } else {
        group := group.(geometryCount := group.geometryCount + 1);
      }
      groups := groups[geoProperty := group];
      GroupsStep(visibleLayers, i);
      i := i + 1;
    }
    assert visibleLayers[..i] == visibleLayers;
  }

  /** One more layer of the input, one more step of the grouping. */
  lemma GroupsStep(layers: seq<Layer>, i: nat)
    requires i < |layers|
    ensures Groups(layers[..i + 1]) == AddToGroups(Groups(layers[..i]), layers[i])
  {
    assert layers[..i + 1][..i] == layers[..i];
  }

  /** One more layer of the input, one more entry set in the roles. */
  lemma RolesOverStep(layers: seq<Layer>, groups: map<string, LayerGroup>, strategy: Strategy, i: nat)
    requires forall l :: l in layers ==> GroupKey(l) in groups
    requires i < |layers|
    ensures forall l :: l in layers[..i + 1] ==> GroupKey(l) in groups
    ensures RolesOver(layers[..i + 1], groups, strategy)
      == RolesOver(layers[..i], groups, strategy)[layers[i].name := ComputeLayerRole(layers[i], groups[GroupKey(layers[i])], strategy)]
  {
    assert layers[..i + 1][..i] == layers[..i];
  }

  /** `computeAllLayerRoles`: groups the layers, then sets each layer's role by name. */
  method ComputeAllLayerRoles(visibleLayers: Option<seq<Layer>>, strategy: Strategy)
    returns (roles: map<string, LayerColoringRole>)
    ensures roles == AllRoles(visibleLayers, strategy)
  {
    roles := map[];
    if visibleLayers.None? || |visibleLayers.value| == 0 {
      return;
    }
    var layers := visibleLayers.value;
    var groups := ComputeLayerGroups(layers);
    GroupKeysPresent(layers);
    var i := 0;
    while i < |layers|
      invariant 0 <= i <= |layers|
      invariant roles == RolesOver(layers[..i], groups, strategy)
    {
      var layer := layers[i];
      var role := ComputeLayerRole(layer, groups[GroupKey(layer)], strategy);
      RolesOverStep(layers, groups, strategy, i);
      roles := roles[layer.name := role];
      i := i + 1;
    }
    assert layers[..i] == layers;
  }

  /** The caching wrapper around `computeAllLayerRoles`. */
  class LayerColoringManager {
    var cachedRoles: map<string, LayerColoringRole>
    var strategy: Strategy

    constructor(strategy: Strategy)
      ensures this.strategy == strategy && cachedRoles == map[]
    {
      this.strategy := strategy;
      cachedRoles := map[];
    }

    method SetStrategy(strategy: Strategy)
      modifies this
      ensures this.strategy == strategy && cachedRoles == old(cachedRoles)
    {
      this.strategy := strategy;
    }

    function GetStrategy(): (s: Strategy)
      reads this
      ensures s == strategy
    {
      strategy
    }

    /** Replaces the cache with the roles of `visibleLayers` under the current strategy. */
    method ComputeRoles(visibleLayers: seq<Layer>) returns (roles: map<string, LayerColoringRole>)
      modifies this
      ensures cachedRoles == AllRoles(Some(visibleLayers), strategy) && roles == cachedRoles
      ensures strategy == old(strategy)
    {
      cachedRoles := ComputeAllLayerRoles(Some(visibleLayers), strategy);
      roles := cachedRoles;
    }

    function GetRole(layerName: string): (r: Option<LayerColoringRole>)
      reads this
      ensures r.Some? <==> layerName in cachedRoles
      ensures r.Some? ==> r.value == cachedRoles[layerName]
    {
      if layerName in cachedRoles then Some(cachedRoles[layerName]) else None
    }

    /** `shouldApplyColorBy`: the cached role is primary or secondary; false for unknown layers. */
    function ShouldApplyColorBy(layerName: string): (b: bool)
      reads this
      ensures b <==> layerName in cachedRoles && cachedRoles[layerName].role != Neutral
    {
      var r := GetRole(layerName);
      r.Some? && (r.value.role == Primary || r.value.role == Secondary)
    }

    method ClearCache()
      modifies this
      ensures cachedRoles == map[] && strategy == old(strategy)
    {
      cachedRoles := map[];
    }
  }
}
