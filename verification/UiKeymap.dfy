/** The touch keymap's configuration and its key lookup table. */
module UiKeymap {
  import opened Wrappers
  import opened KeyNames
  import opened SteerVector

  datatype DelayedClick = DelayedClick(delay: nat, pos: Pos)

  datatype Node =
    | Click(key: string, pos: Pos, switchMap: bool)
    | ClickTwice(key: string, pos: Pos)
    | ClickMulti(key: string, clicks: seq<DelayedClick>)
    | SteerWheel(center: Pos, offsets: Offsets, leftKey: string, rightKey: string, upKey: string, downKey: string)
    | Drag(key: string, start: Pos, end: Pos)

  datatype MouseMoveMap = MouseMoveMap(
    start: Pos, speedRatioX: real, speedRatioY: real, speedRatio: real, adsSensitivity: real, adsKey: Option<string>)

  datatype KeymapConfig = KeymapConfig(switchKey: string, mouse: Option<MouseMoveMap>, nodes: seq<Node>)

  function NodeKeys(node: Node): seq<string> {
    match node
    case SteerWheel(_, _, l, r, u, d) => [l, r, u, d]
    case _ => [node.key]
  }

  /** A wheel has its four key names, every other node its own. */
  lemma KeysOfNode(node: Node, name: string)
    ensures name in NodeKeys(node) <==>
              if node.SteerWheel? then
                name == node.leftKey || name == node.rightKey || name == node.upKey || name == node.downKey
              else name == node.key
  {
    var keys := NodeKeys(node);
    if node.SteerWheel? {
      assert keys[0] == node.leftKey && keys[1] == node.rightKey && keys[2] == node.upKey && keys[3] == node.downKey;
    } else {
      assert keys[0] == node.key;
    }
  }

  // ----- the lookup table -----

  /** How often the key names resolve to keysym k: one entry i for each time. */
  function Hits(keys: seq<string>, i: nat, k: nat): (r: seq<nat>)
    ensures forall j :: 0 <= j < |r| ==> r[j] == i
    ensures r != [] <==> exists n :: 0 <= n < |keys| && NameToKeysym(keys[n]) == Some(k)
  {
    if keys == [] then []
    else
      var last := |keys| - 1;
      assert keys == keys[..last] + [keys[last]];
      Hits(keys[..last], i, k) + if NameToKeysym(keys[last]) == Some(k) then [i] else []
  }

  /** A scan of the nodes in order: the index of each node once for every key of it that resolves to k. */
  function Scan(nodes: seq<Node>, k: nat): (r: seq<nat>)
    ensures forall j :: 0 <= j < |r| ==> r[j] < |nodes|
  {
    if nodes == [] then []
    else
      var last := |nodes| - 1;
      Scan(nodes[..last], k) + Hits(NodeKeys(nodes[last]), last, k)
  }

  function Entry(table: map<nat, seq<nat>>, k: nat): seq<nat> {
    if k in table then table[k] else []
  }

  lemma HitsSnoc(keys: seq<string>, n: nat, i: nat, k: nat)
    requires n < |keys|
    ensures Hits(keys[..n + 1], i, k) == Hits(keys[..n], i, k) + if NameToKeysym(keys[n]) == Some(k) then [i] else []
  {
    assert keys[..n + 1][..n] == keys[..n];
  }

  lemma ScanSnoc(nodes: seq<Node>, i: nat, k: nat)
    requires i < |nodes|
    ensures Scan(nodes[..i + 1], k) == Scan(nodes[..i], k) + Hits(NodeKeys(nodes[i]), i, k)
  {
    assert nodes[..i + 1][..i] == nodes[..i];
  }

  predicate NoEmptyEntry(table: map<nat, seq<nat>>) {
    forall k :: k in table ==> table[k] != []
  }

  /** One key name of node i. */
  method AddKey(before: map<nat, seq<nat>>, name: string, i: nat) returns (table: map<nat, seq<nat>>)
    requires NoEmptyEntry(before)
    ensures NoEmptyEntry(table)
    ensures forall k: nat :: Entry(table, k) == Entry(before, k) + if NameToKeysym(name) == Some(k) then [i] else []
  {
    hide NameToKeysym;
    var keysym := NameToKeysym(name);
    table := before;
    if keysym.Some? {
      table := before[keysym.value := Entry(before, keysym.value) + [i]];
    }
  }

  /** All key names of node i. */
  method AddKeys(before: map<nat, seq<nat>>, keys: seq<string>, i: nat) returns (table: map<nat, seq<nat>>)
    requires NoEmptyEntry(before)
    ensures NoEmptyEntry(table)
    ensures forall k: nat :: Entry(table, k) == Entry(before, k) + Hits(keys, i, k)
  {
    hide NameToKeysym, Entry, NoEmptyEntry;
    table := before;
    var n := 0;
    while n < |keys|
      invariant 0 <= n <= |keys| && NoEmptyEntry(table)
      invariant forall k: nat :: Entry(table, k) == Entry(before, k) + Hits(keys[..n], i, k)
    {
      ghost var was := table;
      table := AddKey(table, keys[n], i);
      forall k: nat
        ensures Entry(table, k) == Entry(before, k) + Hits(keys[..n + 1], i, k)
      {
        HitsSnoc(keys, n, i, k);
        assert Entry(was, k) == Entry(before, k) + Hits(keys[..n], i, k);
      }
      n := n + 1;
    }
    assert keys[..n] == keys;
  }

  /** The table answers every key as a scan of the nodes would. */
  method BuildKeyLookup(nodes: seq<Node>) returns (table: map<nat, seq<nat>>)
    ensures forall k: nat :: Entry(table, k) == Scan(nodes, k)
    ensures NoEmptyEntry(table)
  {
    table := map[];
    var i := 0;
    while i < |nodes|
      invariant 0 <= i <= |nodes| && NoEmptyEntry(table)
      invariant forall k: nat :: Entry(table, k) == Scan(nodes[..i], k)
    {
      ghost var was := table;
      table := AddKeys(table, NodeKeys(nodes[i]), i);
      forall k: nat
        ensures Entry(table, k) == Scan(nodes[..i + 1], k)
      {
        ScanSnoc(nodes, i, k);
        assert Entry(was, k) == Scan(nodes[..i], k);
      }
      i := i + 1;
    }
    assert nodes[..i] == nodes;
  }

  // ----- what the engine keeps of the configuration -----

  datatype Settings = Settings(
    nodes: seq<Node>,
    switchSym: nat,
    steerCenter: Pos,
    steerOffsets: Offsets,
    hasMouse: bool,
    mouseCenter: Pos,
    speedX: real,
    speedY: real,
    adsSym: Option<nat>,
    adsSensitivity: real)

  const NO_OFFSETS := Offsets(0.0, 0.0, 0.0, 0.0)

  /** Centre and offsets of the first wheel among the nodes. */
  function FirstWheel(nodes: seq<Node>): (Pos, Offsets) {
    if nodes == [] then (Pos(0.0, 0.0), NO_OFFSETS)
    else if nodes[0].SteerWheel? then (nodes[0].center, nodes[0].offsets)
    else FirstWheel(nodes[1..])
  }

  /** A ratio of its own wins over the legacy one, which wins over 1. */
  function Speed(own: real, legacy: real): real {
    if own != 1.0 then own else if legacy != 0.0 then legacy else 1.0
  }

  function SymOr(name: string, default: nat): nat {
    var k := NameToKeysym(name);
    if k.Some? then k.value else default
  }

  function Setup(config: KeymapConfig): Settings {
    var (center, offsets) := FirstWheel(config.nodes);
    match config.mouse
    case Some(m) =>
      Settings(config.nodes, SymOr(config.switchKey, 0x60), center, offsets, true, m.start,
               Speed(m.speedRatioX, m.speedRatio), Speed(m.speedRatioY, m.speedRatio),
               if m.adsKey.Some? then NameToKeysym(m.adsKey.value) else None, m.adsSensitivity)
    case None =>
      Settings(config.nodes, SymOr(config.switchKey, 0x60), center, offsets, false, Pos(0.5, 0.5), 1.0, 1.0, None, 0.4)
  }
}
