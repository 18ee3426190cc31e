/**
 A namestore over a document's root map (onomancy_automerge/src/namestore.rs). The substrate
 is a map from keys to the values concurrent writes left there, the winner last.
 */
module Namestores {
  import opened Wrappers
  import opened Wire
  import opened Text
  import opened Segments
  import opened Anchors

  datatype Item = Blob(bytes: Bytes) | NotBytes

  datatype Value = Scalar(text: string) | ListObject(items: seq<Item>) | OtherValue

  type Root = map<string, seq<Value>>

  /** A key that is present holds something. */
  ghost predicate WellFormed(root: Root) {
    forall key | key in root :: root[key] != []
  }

  /** The value reads see: the last of those a merge left. */
  function Get(root: Root, key: string): Option<Value> {
    if key in root && root[key] != [] then Some(root[key][|root[key]| - 1]) else None
  }

  function ParseBareReference(a: AnchorCodec, value: Value): Option<Doc> {
    match value
    case Scalar(text) =>
      (match StripPrefix(text, SCHEME_PREFIX)
       case Some(spelled) => a.parse(spelled)
       case None => None)
    case _ => None
  }

  // ----- path keys -----

  function PathKey(path: Path): Option<string> {
    if path == [] then None else Some(Join(path, '/'))
  }

  predicate IsPathKey(key: string) {
    key != "" && forall i | 0 <= i < |Split(key, '/')| :: ValidSegment(Split(key, '/')[i])
  }

  lemma SplitPathKey(path: Path)
    requires path != []
    ensures Split(PathKey(path).value, '/') == path && IsPathKey(PathKey(path).value)
  {
    SplitJoin(path, '/');
    assert Split("", '/')[0] == "" && !ValidSegment("") && ValidSegment(path[0]);
  }

  /** One spelling a path: distinct paths have distinct keys. */
  lemma PathKeyInjective(path: Path, other: Path)
    ensures PathKey(path) == PathKey(other) <==> path == other
  {
    if path != [] && other != [] {
      SplitPathKey(path);
      SplitPathKey(other);
    }
  }

  /** The path a well-formed key spells. */
  function PathOf(key: string): (path: Path)
    requires IsPathKey(key)
    ensures PathKey(path) == Some(key)
  {
    JoinSplit(key, '/');
    Split(key, '/')
  }

  /** The enumeration's check accepts exactly the keys some path spells. */
  lemma PathKeysExactly(key: string)
    ensures IsPathKey(key) <==> exists path: Path :: PathKey(path) == Some(key)
  {
    if IsPathKey(key) {
      assert PathKey(PathOf(key)) == Some(key);
    }
    if path: Path :| PathKey(path) == Some(key) {
      SplitPathKey(path);
    }
  }

  method JoinPath(path: Path) returns (key: Option<string>)
    ensures key == PathKey(path)
  {
    if path == [] {
      return None;
    }
    var joined := "";
    for index := 0 to |path|
      invariant joined == Join(path[..index], '/')
    {
      JoinSnoc(path[..index], path[index]);
      assert path[..index] + [path[index]] == path[..index + 1];
      if index > 0 {
        joined := joined + ['/'];
      }
      joined := joined + path[index];
    }
    assert path[..|path|] == path;
    return Some(joined);
  }

  lemma {:induction false} JoinSnoc(parts: seq<string>, last: string)
    ensures Join(parts + [last], '/') ==
            if parts == [] then last else Join(parts, '/') + ['/'] + last
  {
    if parts == [] {
      assert parts + [last] == [last];
    } else {
      assert parts + [last] == [parts[0]] + (parts[1..] + [last]);
      JoinSnoc(parts[1..], last);
      JoinCons(parts[0], parts[1..] + [last], '/');
      if parts[1..] == [] {
        assert parts == [parts[0]];
      } else {
        JoinCons(parts[0], parts[1..], '/');
        assert parts == [parts[0]] + parts[1..];
      }
    }
  }

  // ----- reading -----

  function Reference(a: AnchorCodec, root: Root, path: Path): Option<Doc> {
    match PathKey(path)
    case None => None
    case Some(key) =>
      match Get(root, key)
      case None => None
      case Some(value) => ParseBareReference(a, value)
  }

  datatype NamestoreRead = NamestoreRead(
    edges: seq<(string, Doc)>,
    malformedKeys: seq<string>,
    nonReferences: seq<string>,
    conflicts: seq<(string, Doc)>)

  const NOTHING_READ: NamestoreRead := NamestoreRead([], [], [], [])

  /** The losers a merge left at a key that are references. */
  function Losers(a: AnchorCodec, key: string, values: seq<Value>): seq<(string, Doc)> {
    if values == [] then []
    else
      match ParseBareReference(a, values[0])
      case Some(target) => [(key, target)] + Losers(a, key, values[1..])
      case None => Losers(a, key, values[1..])
  }

  function ReadKey(a: AnchorCodec, root: Root, key: string, read: NamestoreRead): NamestoreRead {
    if !IsPathKey(key) then read.(malformedKeys := read.malformedKeys + [key])
    else if key !in root || root[key] == [] then read
    else
      var values := root[key];
      var surfaced := read.(conflicts := read.conflicts + Losers(a, key, values[..|values| - 1]));
      match ParseBareReference(a, values[|values| - 1])
      case Some(target) => surfaced.(edges := read.edges + [(key, target)])
      case None => surfaced.(nonReferences := read.nonReferences + [key])
  }

  function ReadKeys(a: AnchorCodec, root: Root, keys: seq<string>): NamestoreRead {
    if keys == [] then NOTHING_READ
    else ReadKey(a, root, keys[|keys| - 1], ReadKeys(a, root, keys[..|keys| - 1]))
  }

  /** The substrate lists each key once, in an order of its own. */
  ghost predicate Enumerates(keys: seq<string>, root: Root) {
    (forall key :: key in keys <==> key in root) && forall i, j | 0 <= i < j < |keys| :: keys[i] != keys[j]
  }

  method Read(a: AnchorCodec, root: Root, keys: seq<string>) returns (read: NamestoreRead)
    requires WellFormed(root) && Enumerates(keys, root)
    ensures read == ReadKeys(a, root, keys)
  {
    read := NOTHING_READ;
    for i := 0 to |keys|
      invariant read == ReadKeys(a, root, keys[..i])
    {
      var key := keys[i];
      assert keys[..i + 1][..i] == keys[..i];
      if !IsPathKey(key) {
        read := read.(malformedKeys := read.malformedKeys + [key]);
      } else {
        var conflicting := root[key];
        var winner := ParseBareReference(a, conflicting[|conflicting| - 1]);
        var losers := CollectLosers(a, key, conflicting[..|conflicting| - 1]);
        read := read.(conflicts := read.conflicts + losers);
        match winner {
          case Some(target) => read := read.(edges := read.edges + [(key, target)]);
          case None => read := read.(nonReferences := read.nonReferences + [key]);
        }
      }
    }
    assert keys[..|keys|] == keys;
  }

  method CollectLosers(a: AnchorCodec, key: string, values: seq<Value>) returns (losers: seq<(string, Doc)>)
    ensures losers == Losers(a, key, values)
  {
    losers := [];
    for i := 0 to |values|
      invariant losers + Losers(a, key, values[i..]) == Losers(a, key, values)
    {
      assert values[i..][1..] == values[i + 1..];
      match ParseBareReference(a, values[i]) {
        case Some(target) => losers := losers + [(key, target)];
        case None =>
      }
    }
    assert losers + [] == losers;
  }

  // ----- enumeration agrees with lookup -----

  /** The reference a key holds, as lookup sees it. */
  function TargetAt(a: AnchorCodec, root: Root, key: string): Option<Doc> {
    match Get(root, key)
    case Some(value) => ParseBareReference(a, value)
    case None => None
  }

  lemma {:induction false} EdgesRead(a: AnchorCodec, root: Root, keys: seq<string>)
    requires WellFormed(root) && forall key | key in keys :: key in root
    ensures forall key, target ::
              (key, target) in ReadKeys(a, root, keys).edges <==>
              key in keys && IsPathKey(key) && TargetAt(a, root, key) == Some(target)
  {
    hide IsPathKey, ParseBareReference;
    if keys != [] {
      var front, last := keys[..|keys| - 1], keys[|keys| - 1];
      assert keys == front + [last];
      EdgesRead(a, root, front);
      assert last in keys;
    }
  }

  /** `edges` and `reference` see the same store: a name resolves exactly when its key is an edge. */
  lemma {:induction false} EdgesAgreeWithReference(a: AnchorCodec, root: Root, keys: seq<string>, path: Path,
                                                   target: Doc)
    requires WellFormed(root) && Enumerates(keys, root)
    ensures Reference(a, root, path) == Some(target) <==>
            path != [] && (PathKey(path).value, target) in ReadKeys(a, root, keys).edges
  {
    hide IsPathKey, ParseBareReference;
    EdgesRead(a, root, keys);
    if path != [] {
      SplitPathKey(path);
    }
  }

  /** Every key is accounted for once: malformed, a non-reference, or an edge. */
  lemma {:induction false} EveryKeyAccountedFor(a: AnchorCodec, root: Root, keys: seq<string>)
    requires WellFormed(root) && forall key | key in keys :: key in root
    ensures var read := ReadKeys(a, root, keys);
            && |read.malformedKeys| + |read.nonReferences| + |read.edges| == |keys|
            && (forall key :: key in read.malformedKeys <==> key in keys && !IsPathKey(key))
            && (forall key ::
                  key in read.nonReferences <==> key in keys && IsPathKey(key) && TargetAt(a, root, key) == None)
  {
    hide IsPathKey, ParseBareReference;
    if keys != [] {
      var front, last := keys[..|keys| - 1], keys[|keys| - 1];
      assert keys == front + [last];
      assert last in keys;
      EveryKeyAccountedFor(a, root, front);
    }
  }

  lemma {:induction false} LosersMean(a: AnchorCodec, key: string, values: seq<Value>)
    ensures forall k, target ::
              (k, target) in Losers(a, key, values) <==>
              k == key && exists v :: v in values && ParseBareReference(a, v) == Some(target)
  {
    hide ParseBareReference;
    if values != [] {
      LosersMean(a, key, values[1..]);
      assert forall v :: v in values <==> v == values[0] || v in values[1..];
    }
  }

  /** The conflicts reported are exactly the references that lost to the value lookup sees. */
  lemma {:induction false} ConflictsAreTheLosers(a: AnchorCodec, root: Root, keys: seq<string>)
    requires WellFormed(root) && forall key | key in keys :: key in root
    ensures forall key, target ::
              (key, target) in ReadKeys(a, root, keys).conflicts <==>
              && key in keys && IsPathKey(key)
              && exists v :: v in root[key][..|root[key]| - 1] && ParseBareReference(a, v) == Some(target)
  {
    hide IsPathKey, ParseBareReference, Losers;
    if keys != [] {
      var front, last := keys[..|keys| - 1], keys[|keys| - 1];
      assert keys == front + [last];
      assert last in keys;
      ConflictsAreTheLosers(a, root, front);
      LosersMean(a, last, root[last][..|root[last]| - 1]);
    }
  }
}
