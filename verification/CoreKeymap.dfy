/** The core's keymap: validation, cached scale factors, and the index from keys to bindings. */
module CoreKeymap {
  import opened Wrappers
  import opened Numbers

  type Key = string

  datatype Point = Point(x: int, y: int)

  datatype Region = Region(x1: int, y1: int, x2: int, y2: int)

  datatype Binding =
    | Tap(key: Key, point: Point)
    | LongPress(key: Key, point: Point, durationMs: nat)
    | Swipe(key: Key, from: Point, to: Point, durationMs: nat)
    | Joystick(up: Key, left: Key, down: Key, right: Key, center: Point, radius: nat)
    | Aim(key: Key, region: Region, sensitivity: real)

  datatype Keymap = Keymap(name: string, gamePackage: string, resolution: (nat, nat), bindings: seq<Binding>)

  datatype KeymapError =
    | ParseError
    | UnknownKey(key: Key)
    | DuplicateKey(key: Key)
    | BadDuration
    | BadRadius
    | BadRegion
    | BadSensitivity

  const KNOWN_KEYS: set<Key> := {
    "a", "b", "c", "d", "e", "f", "g", "h", "i", "j", "k", "l", "m", "n", "o", "p", "q", "r", "s", "t", "u", "v", "w",
    "x", "y", "z", "0", "1", "2", "3", "4", "5", "6", "7", "8", "9", "space", "shift", "ctrl", "alt", "tab", "escape",
    "enter", "backspace", "capslock", "f1", "f2", "f3", "f4", "f5", "f6", "f7", "f8", "f9", "f10", "f11", "f12", "up",
    "down", "left", "right", "mouse1", "mouse2", "mouse3", "mouse4", "mouse5", "grave", "minus", "equal", "leftbracket",
    "rightbracket", "backslash", "semicolon", "apostrophe", "comma", "period", "slash", "insert", "delete", "home",
    "end", "pageup", "pagedown"
  }

  predicate Known(k: Key) {
    k in KNOWN_KEYS
  }

  function BindingKeys(b: Binding): seq<Key> {
    match b
    case Joystick(u, l, d, r, _, _) => [u, l, d, r]
    case _ => [b.key]
  }

  /** The keys of all bindings, in order. */
  function AllKeys(bindings: seq<Binding>): seq<Key> {
    if bindings == [] then [] else AllKeys(bindings[..|bindings| - 1]) + BindingKeys(bindings[|bindings| - 1])
  }

  lemma AllKeysSnoc(bindings: seq<Binding>, i: nat)
    requires i < |bindings|
    ensures AllKeys(bindings[..i + 1]) == AllKeys(bindings[..i]) + BindingKeys(bindings[i])
  {
    assert bindings[..i + 1][..i] == bindings[..i];
  }

  // ----- validation -----

  ghost predicate Distinct(keys: seq<Key>) {
    forall i, j :: 0 <= i < j < |keys| ==> keys[i] != keys[j]
  }

  ghost predicate AllKnown(keys: seq<Key>) {
    forall i :: 0 <= i < |keys| ==> Known(keys[i])
  }

  /** What is wrong with a binding apart from its keys. */
  function ShapeError(b: Binding): Option<KeymapError> {
    match b
    case Tap(_, _) => None
    case LongPress(_, _, d) => if d == 0 then Some(BadDuration) else None
    case Swipe(_, _, _, d) => if d == 0 then Some(BadDuration) else None
    case Joystick(_, _, _, _, _, radius) => if radius == 0 then Some(BadRadius) else None
    case Aim(_, r, s) => if r.x1 >= r.x2 || r.y1 >= r.y2 then Some(BadRegion) else if s <= 0.0 then Some(BadSensitivity) else None
  }

  /** A long press and a swipe last, a joystick has a radius, and an aim region has a size and a sensitivity. */
  lemma ShapeOkIff(b: Binding)
    ensures ShapeError(b).None? <==>
              && (b.LongPress? || b.Swipe? ==> b.durationMs > 0)
              && (b.Joystick? ==> b.radius > 0)
              && (b.Aim? ==> b.region.x1 < b.region.x2 && b.region.y1 < b.region.y2 && b.sensitivity > 0.0)
    ensures ShapeError(b).Some? ==>
              match ShapeError(b).value
              case BadDuration => b.LongPress? || b.Swipe?
              case BadRadius => b.Joystick?
              case BadRegion => b.Aim? && !(b.region.x1 < b.region.x2 && b.region.y1 < b.region.y2)
              case BadSensitivity => b.Aim? && b.region.x1 < b.region.x2 && b.region.y1 < b.region.y2
              case _ => false
  {
  }

  /** A joystick has its four keys, every other binding its own. */
  lemma KeysOfBinding(b: Binding, k: Key)
    ensures k in BindingKeys(b) <==> if b.Joystick? then k == b.up || k == b.left || k == b.down || k == b.right else k == b.key
  {
    var keys := BindingKeys(b);
    if b.Joystick? {
      assert keys[0] == b.up && keys[1] == b.left && keys[2] == b.down && keys[3] == b.right;
    } else {
      assert keys[0] == b.key;
    }
  }

  ghost predicate WellShaped(bindings: seq<Binding>) {
    forall i :: 0 <= i < |bindings| ==> ShapeError(bindings[i]).None?
  }

  /** Every key known and bound once, every number in range. */
  ghost predicate ValidBindings(bindings: seq<Binding>) {
    AllKnown(AllKeys(bindings)) && Distinct(AllKeys(bindings)) && WellShaped(bindings)
  }

  /** Binding i is the first at fault, and the error names the fault; its keys are looked at before its numbers. */
  ghost predicate FirstFault(e: KeymapError, bindings: seq<Binding>, i: nat) {
    && i < |bindings| && ValidBindings(bindings[..i])
    && match e
       case ParseError => false
       case UnknownKey(k) => k in BindingKeys(bindings[i]) && !Known(k)
       case DuplicateKey(k) => k in BindingKeys(bindings[i]) && !Distinct(AllKeys(bindings[..i + 1]))
       case _ =>
         && ShapeError(bindings[i]) == Some(e)
         && AllKnown(AllKeys(bindings[..i + 1])) && Distinct(AllKeys(bindings[..i + 1]))
  }

  ghost predicate Explains(e: KeymapError, bindings: seq<Binding>) {
    exists i: nat :: FirstFault(e, bindings, i)
  }

  function KeySet(keys: seq<Key>): set<Key> {
    set k | k in keys
  }

  /** The keys of one binding against those used so far. */
  method CheckKeys(keys: seq<Key>, used: set<Key>, ghost before: seq<Key>) returns (r: Result<set<Key>, KeymapError>)
    requires AllKnown(before) && Distinct(before) && used == KeySet(before)
    ensures r.Success? ==> AllKnown(before + keys) && Distinct(before + keys) && r.value == KeySet(before + keys)
    ensures r.Failure? ==> (r.error.UnknownKey? || r.error.DuplicateKey?) && r.error.key in keys
    ensures r.Failure? ==> if r.error.UnknownKey? then !Known(r.error.key) else !Distinct(before + keys)
  {
    hide Known;
    var all := used;
    var n := 0;
    assert before + keys[..0] == before;
    while n < |keys|
      invariant 0 <= n <= |keys|
      invariant AllKnown(before + keys[..n]) && Distinct(before + keys[..n])
      invariant all == KeySet(before + keys[..n])
    {
      var key := keys[n];
      ghost var sofar := before + keys[..n];
      if !Known(key) {
        return Failure(UnknownKey(key));
      }
      if key in all {
        ghost var i :| 0 <= i < |sofar| && sofar[i] == key;
        assert (before + keys)[i] == sofar[i] && (before + keys)[|before| + n] == key;
        return Failure(DuplicateKey(key));
      }
      assert before + keys[..n + 1] == sofar + [key];
      all := all + {key};
      n := n + 1;
    }
    assert keys[..n] == keys;
    r := Success(all);
  }

  lemma KeysOfPart(bindings: seq<Binding>, i: nat, k: Key)
    requires i < |bindings| && k in BindingKeys(bindings[i])
    ensures k in AllKeys(bindings)
  {
    AllKeysSnoc(bindings, i);
    PartOfAllKeys(bindings, i + 1);
  }

  lemma {:induction false} PartOfAllKeys(bindings: seq<Binding>, i: nat)
    requires i <= |bindings|
    ensures AllKeys(bindings[..i]) <= AllKeys(bindings)
    decreases |bindings| - i
  {
    if i == |bindings| {
      assert bindings[..i] == bindings;
    } else {
      AllKeysSnoc(bindings, i);
      PartOfAllKeys(bindings, i + 1);
      PrefixChain(AllKeys(bindings[..i]), AllKeys(bindings[..i + 1]), AllKeys(bindings));
    }
  }

  lemma PrefixChain(a: seq<Key>, b: seq<Key>, c: seq<Key>)
    requires a <= b && b <= c
    ensures a <= c
  {
    assert c[..|a|] == b[..|a|];
  }

  lemma DistinctPart(part: seq<Key>, keys: seq<Key>)
    requires part <= keys && Distinct(keys)
    ensures Distinct(part)
  {
    assert forall i :: 0 <= i < |part| ==> part[i] == keys[i];
  }

  /** Accepts exactly the keymaps in which every key is known and bound once and every number is in range. */
  method ValidateKeymap(keymap: Keymap) returns (r: Result<(), KeymapError>)
    ensures r.Success? <==> ValidBindings(keymap.bindings)
    ensures r.Failure? ==> Explains(r.error, keymap.bindings)
  {
    var bindings := keymap.bindings;
    var used: set<Key> := {};
    var i := 0;
    assert bindings[..0] == [] && ValidBindings([]) && AllKeys([]) == [];
    hide AllKeys, ValidBindings, FirstFault;
    while i < |bindings|
      invariant 0 <= i <= |bindings|
      invariant ValidBindings(bindings[..i])
      invariant used == KeySet(AllKeys(bindings[..i]))
    {
      var checked := CheckBinding(bindings, i, used);
      if checked.Failure? {
        return Failure(checked.error);
      }
      used := checked.value;
      i := i + 1;
    }
    assert bindings[..i] == bindings;
    r := Success(());
  }

  /** Binding i, the ones before it being in order. */
  method CheckBinding(bindings: seq<Binding>, i: nat, used: set<Key>) returns (r: Result<set<Key>, KeymapError>)
    requires i < |bindings| && ValidBindings(bindings[..i]) && used == KeySet(AllKeys(bindings[..i]))
    ensures r.Success? ==> ValidBindings(bindings[..i + 1]) && r.value == KeySet(AllKeys(bindings[..i + 1]))
    ensures r.Failure? ==> FirstFault(r.error, bindings, i) && !ValidBindings(bindings)
  {
    hide Known, ShapeError, AllKeys, AllKnown, Distinct, BindingKeys;
    var checked := CheckKeys(BindingKeys(bindings[i]), used, AllKeys(bindings[..i]));
    AllKeysSnoc(bindings, i);
    if checked.Failure? {
      hide ValidBindings;
      RefusedKey(bindings, i, checked.error);
      return Failure(checked.error);
    }
    var shape := ShapeError(bindings[i]);
    if shape.Some? {
      ShapeErrorKinds(bindings[i]);
      return Failure(shape.value);
    }
    r := checked;
  }

  lemma ShapeErrorKinds(b: Binding)
    ensures ShapeError(b).Some? ==> ShapeError(b).value in {BadDuration, BadRadius, BadRegion, BadSensitivity}
  {
  }

  lemma RefusedKey(bindings: seq<Binding>, i: nat, e: KeymapError)
    requires i < |bindings| && (e.UnknownKey? || e.DuplicateKey?) && e.key in BindingKeys(bindings[i])
    requires if e.UnknownKey? then !Known(e.key) else !Distinct(AllKeys(bindings[..i + 1]))
    ensures !ValidBindings(bindings)
  {
    hide Known;
    KeysOfPart(bindings, i, e.key);
    PartOfAllKeys(bindings, i + 1);
    if e.DuplicateKey? && Distinct(AllKeys(bindings)) {
      DistinctPart(AllKeys(bindings[..i + 1]), AllKeys(bindings));
    }
  }
}
