/**
 Checking the LDAP verification key IDs of a raw configuration file, where a key path may be spelled
 nested, dotted or in any letter case. Keys are ASCII, so lowering a key keeps its length.
 */
module ConfigKeys {

  /** A key of a map[any]any: printed is what fmt.Sprint makes of it, kind tells keys apart that print alike. */
  datatype AnyKey = AnyKey(kind: nat, printed: string)

  datatype Value = Scalar | StringMap(fields: map<string, Value>) | AnyMap(items: map<AnyKey, Value>)

  /** The named entries of a value. */
  function Edges(v: Value): (edges: set<(string, Value)>)
    ensures forall e | e in edges :: e.1 < v
  {
    match v
    case Scalar => {}
    case StringMap(fields) => set name | name in fields :: (name, fields[name])
    case AnyMap(items) => set key | key in items :: (key.printed, items[key])
  }

  /** Two keys of one map print alike. */
  predicate Collides(v: Value) {
    v.AnyMap? && exists a, b | a in v.items && b in v.items :: a != b && a.printed == b.printed
  }

  function LowerChar(c: char): char {
    if 'A' <= c <= 'Z' then (c as int + 32) as char else c
  }

  function Lower(s: string): string {
    seq(|s|, i requires 0 <= i < |s| => LowerChar(s[i]))
  }

  /** Lowercase ASCII letters, digits, '-' and '_', and not empty. */
  predicate ValidID(id: string) {
    id != "" && forall i | 0 <= i < |id| :: 'a' <= id[i] <= 'z' || '0' <= id[i] <= '9' || id[i] == '-' || id[i] == '_'
  }

  const VERIFICATION_KEYS := "auth.ldap.verificationkeys"

  // ---- The walker ----------------------------------------------------------

  /** What the walker accepts below a value when path is what is left of the path to the key IDs. */
  predicate Accepts(v: Value, path: string)
    decreases v, 0
  {
    !Collides(v) && forall e | e in Edges(v) :: AcceptsEntry(e.0, e.1, path)
  }

  predicate AcceptsEntry(name: string, child: Value, path: string)
    decreases child, 1
  {
    if path == "" then ValidID(name)
    else if Lower(name) == path then Accepts(child, "")
    else if Lower(name) + "." <= path then Accepts(child, path[|name| + 1..])
    else if path + "." <= Lower(name) then ValidID(name[|path| + 1..])
    else true
  }

  /** A path that does not run empty before its last segment is matched. */
  predicate ProperPath(path: string) {
    path != "" && path[|path| - 1] != '.'
  }

  /** entries lists the value's entries by printed name. */
  predicate Lists(entries: map<string, Value>, v: Value) {
    && (forall e | e in Edges(v) :: e.0 in entries && entries[e.0] == e.1)
    && (forall name | name in entries :: (name, entries[name]) in Edges(v))
  }

  /** A map[any]any is renamed to its printed keys, unless two of them print alike. */
  method Renamed(items: map<AnyKey, Value>) returns (ok: bool, entries: map<string, Value>)
    ensures ok == !Collides(AnyMap(items))
    ensures ok ==> Lists(entries, AnyMap(items))
  {
    entries := map[];
    var rest := items;
    while rest != map[]
      invariant rest.Keys <= items.Keys
      invariant forall key | key in items && key !in rest :: key.printed in entries && entries[key.printed] == items[key]
      invariant forall name | name in entries :: exists key :: key in items && key !in rest && key.printed == name
      invariant forall a, b | a in items && b in items && a !in rest && b !in rest && a != b :: a.printed != b.printed
      decreases |rest|
    {
      var key :| key in rest;
      if key.printed in entries {
        return false, entries;
      }
      entries := entries[key.printed := items[key]];
      rest := rest - {key};
    }
    ok := true;
  }

  method ValidateLDAPFileKeyIDs(value: Value, path: string) returns (ok: bool)
    requires path == "" || ProperPath(path)
    ensures ok == Accepts(value, path)
    decreases value, 0
  {
    var entries: map<string, Value> := map[];
    if value.StringMap? {
      entries := value.fields;
    } else if value.AnyMap? {
      var distinct;
      distinct, entries := Renamed(value.items);
      if !distinct {
        return false;
      }
    }
    assert Lists(entries, value);
    var rest := entries;
    while rest != map[]
      invariant rest.Keys <= entries.Keys
      invariant forall name | name in entries && name !in rest :: AcceptsEntry(name, entries[name], path)
      decreases |rest|
    {
      var key :| key in rest;
      var child := entries[key];
      assert (key, child) in Edges(value);
      var fine := ValidateEntry(key, child, path);
      if !fine {
        assert !AcceptsEntry(key, child, path);
        return false;
      }
      rest := rest - {key};
    }
    return true;
  }

  /** One entry of the loop over a map. */
  method ValidateEntry(key: string, child: Value, path: string) returns (fine: bool)
    requires path == "" || ProperPath(path)
    ensures fine == AcceptsEntry(key, child, path)
    decreases child, 1
  {
    var lower := Lower(key);
    fine := true;
    if path == "" {
      fine := ValidID(key);
    } else if lower == path {
      fine := ValidateLDAPFileKeyIDs(child, "");
    } else if lower + "." <= path {
      RestIsProper(key, path);
      fine := ValidateLDAPFileKeyIDs(child, path[|key| + 1..]);
    } else if path + "." <= lower {
      fine := ValidID(key[|path| + 1..]);
    }
  }

  // ---- The flat view -------------------------------------------------------

  /** A way down from a value, one named entry after the other. */
  type Walk = seq<(string, Value)>

  predicate IsWalk(v: Value, w: Walk)
    decreases |w|
  {
    w == [] || (w[0] in Edges(v) && IsWalk(w[0].1, w[1..]))
  }

  /** The dotted key the walk spells. */
  function FullKey(w: Walk): string
    requires w != []
  {
    if |w| == 1 then w[0].0 else w[0].0 + "." + FullKey(w[1..])
  }

  predicate Under(key: string, path: string) {
    path + "." <= Lower(key)
  }

  /** The walk is the first of its kind to lead below the path: what follows the path is a key ID. */
  predicate NamesID(w: Walk, path: string)
    requires w != []
  {
    Under(FullKey(w), path) && (|w| == 1 || !Under(FullKey(w[..|w| - 1]), path))
  }

  /** The walk spells the path or a dotted part of its beginning. */
  predicate LeadsTo(w: Walk, path: string)
    requires w != []
  {
    Lower(FullKey(w)) == path || Lower(FullKey(w)) + "." <= path
  }

  predicate WalkFine(w: Walk, path: string)
    requires w != []
  {
    && (NamesID(w, path) ==> ValidID(FullKey(w)[|path| + 1..]))
    && (LeadsTo(w, path) ==> !Collides(w[|w| - 1].1))
  }

  /** Every key found under the path, however it is spelled, is a valid ID, and no map on the way is ambiguous. */
  ghost predicate FlatAccepts(v: Value, path: string) {
    !Collides(v) && forall w | w != [] && IsWalk(v, w) :: WalkFine(w, path)
  }

  /** All walks that begin with one entry are fine. */
  ghost predicate FineVia(e: (string, Value), path: string) {
    forall u: Walk | IsWalk(e.1, u) :: WalkFine([e] + u, path)
  }

  lemma FlatByEntries(v: Value, path: string)
    ensures FlatAccepts(v, path) <==> !Collides(v) && forall e | e in Edges(v) :: FineVia(e, path)
  {
    if FlatAccepts(v, path) {
      forall e, u | e in Edges(v) && IsWalk(e.1, u)
        ensures WalkFine([e] + u, path)
      {
        assert ([e] + u)[1..] == u;
        assert IsWalk(v, [e] + u);
      }
    }
    if forall e | e in Edges(v) :: FineVia(e, path) {
      forall w | w != [] && IsWalk(v, w)
        ensures WalkFine(w, path)
      {
        assert FineVia(w[0], path);
        assert w == [w[0]] + w[1..];
      }
    }
  }

  lemma LowerConcat(a: string, b: string)
    ensures Lower(a + b) == Lower(a) + Lower(b)
  {
  }

  lemma LowerDotted(a: string, b: string)
    ensures Lower(a + "." + b) == Lower(a) + "." + Lower(b)
  {
    LowerConcat(a + ".", b);
    LowerConcat(a, ".");
    assert Lower(".") == ".";
  }

  lemma FullKeyOf(e: (string, Value), u: Walk)
    ensures FullKey([e] + u) == if u == [] then e.0 else e.0 + "." + FullKey(u)
  {
    assert ([e] + u)[1..] == u;
  }

  lemma KeyOf(e: (string, Value), u: Walk)
    ensures FullKey([e] + u) == if u == [] then e.0 else e.0 + "." + FullKey(u)
    ensures u != [] ==> Lower(FullKey([e] + u)) == Lower(e.0) + "." + Lower(FullKey(u))
    ensures u != [] ==> ([e] + u)[..|u|] == [e] + u[..|u| - 1]
    ensures u != [] ==> ([e] + u)[|u|] == u[|u| - 1]
  {
    FullKeyOf(e, u);
    if u != [] {
      LowerDotted(e.0, FullKey(u));
    }
  }

  /** The entry spells the whole path: its own entries are the IDs. */
  lemma ViaWholePath(e: (string, Value), path: string)
    requires path != "" && Lower(e.0) == path
    ensures FineVia(e, path) <==> Accepts(e.1, "")
  {
    KeyOf(e, []);
    if FineVia(e, path) {
      assert IsWalk(e.1, []) && WalkFine([e] + [], path);
      forall x | x in Edges(e.1)
        ensures ValidID(x.0)
      {
        assert IsWalk(e.1, [x]);
        KeyOf(e, [x]);
        assert WalkFine([e] + [x], path);
        assert ([e] + [x])[..1] == [e];
      }
    }
    if Accepts(e.1, "") {
      forall u: Walk | IsWalk(e.1, u)
        ensures WalkFine([e] + u, path)
      {
        KeyOf(e, u);
        if |u| == 1 {
          assert u[0] in Edges(e.1) && AcceptsEntry(u[0].0, u[0].1, "");
        } else if |u| > 1 {
          KeyOf(e, u[..|u| - 1]);
        }
      }
    }
  }

  /** The entry spells a first part of the path: below it the rest of the path counts. */
  lemma ViaFirstPart(e: (string, Value), path: string)
    requires Lower(e.0) + "." <= path
    ensures FineVia(e, path) <==> FlatAccepts(e.1, path[|e.0| + 1..])
  {
    var rest := path[|e.0| + 1..];
    assert path == Lower(e.0) + "." + rest;
    KeyOf(e, []);
    forall u: Walk | IsWalk(e.1, u) && u != []
      ensures WalkFine([e] + u, path) <==> WalkFine(u, rest)
    {
      SamePlace(e, u, path, rest);
    }
    if FineVia(e, path) {
      assert IsWalk(e.1, []) && WalkFine([e] + [], path);
    }
  }

  lemma SamePlace(e: (string, Value), u: Walk, path: string, rest: string)
    requires path == Lower(e.0) + "." + rest && u != []
    ensures WalkFine([e] + u, path) <==> WalkFine(u, rest)
  {
    hide ValidID, Collides;
    KeyOf(e, u);
    UnderShift(e.0, FullKey(u), path, rest);
    if |u| > 1 {
      KeyOf(e, u[..|u| - 1]);
      UnderShift(e.0, FullKey(u[..|u| - 1]), path, rest);
    } else {
      KeyOf(e, []);
      assert ([e] + u)[..1] == [e];
    }
    var a, b := Lower(FullKey(u)), Lower(e.0) + ".";
    assert Lower(FullKey([e] + u)) == b + a;
    assert b + a == path <==> a == rest by {
      assert (b + a)[|b|..] == a && path[|b|..] == rest;
    }
    PrefixShift(b, a + ".", rest);
    assert b + (a + ".") == b + a + ".";
    if NamesID(u, rest) {
      assert FullKey([e] + u)[|path| + 1..] == FullKey(u)[|rest| + 1..];
    }
  }

  lemma PrefixShift(front: string, a: string, b: string)
    ensures front + a <= front + b <==> a <= b
  {
    if a <= b {
      assert (front + b)[..|front + a|] == front + a;
    }
    if front + a <= front + b {
      assert (front + b)[|front|..][..|a|] == (front + a)[|front|..] == a;
      assert (front + b)[|front|..] == b;
    }
  }

  lemma UnderShift(name: string, key: string, path: string, rest: string)
    requires path == Lower(name) + "." + rest
    ensures Under(name + "." + key, path) <==> Under(key, rest)
  {
    var front := Lower(name) + ".";
    LowerDotted(name, key);
    assert path + "." == front + (rest + ".");
    PrefixShift(front, rest + ".", Lower(key));
  }

  /** The entry leads past the path: its own name holds the ID. */
  lemma ViaLongName(e: (string, Value), path: string)
    requires path + "." <= Lower(e.0)
    ensures FineVia(e, path) <==> ValidID(e.0[|path| + 1..])
  {
    KeyOf(e, []);
    if FineVia(e, path) {
      assert IsWalk(e.1, []) && WalkFine([e] + [], path);
      assert [e] + [] == [e];
    }
    forall u: Walk | IsWalk(e.1, u) && u != []
      ensures WalkFine([e] + u, path)
    {
      KeyOf(e, u);
      KeyOf(e, u[..|u| - 1]);
      assert Lower(e.0) <= Lower(FullKey([e] + u[..|u| - 1]));
    }
  }

  /** Any other entry leads nowhere. */
  lemma ViaElsewhere(e: (string, Value), path: string)
    requires path != "" && Lower(e.0) != path && !(Lower(e.0) + "." <= path) && !(path + "." <= Lower(e.0))
    ensures FineVia(e, path)
  {
    forall u: Walk | IsWalk(e.1, u)
      ensures WalkFine([e] + u, path)
    {
      KeyOf(e, u);
      var key := Lower(FullKey([e] + u));
      var name := Lower(e.0);
      assert name <= key && (u != [] ==> name + "." <= key);
      assert !(path + "." <= key) && !(key + "." <= path && u != []) && !(key == path && u != []);
    }
  }

  /** What is left of a proper path after a first part is proper again, so it is never empty. */
  lemma RestIsProper(name: string, path: string)
    requires ProperPath(path) && Lower(name) + "." <= path
    ensures ProperPath(path[|name| + 1..])
  {
    var k := |name| + 1;
    assert path[..k] == Lower(name) + "." && path[k - 1] == '.';
  }

  /** The walker accepts exactly the trees whose flat view is fine. */
  lemma {:induction false} WalkerIsFlat(v: Value, path: string)
    requires ProperPath(path)
    ensures Accepts(v, path) <==> FlatAccepts(v, path)
    decreases v
  {
    FlatByEntries(v, path);
    forall e | e in Edges(v)
      ensures AcceptsEntry(e.0, e.1, path) <==> FineVia(e, path)
    {
      if Lower(e.0) == path {
        ViaWholePath(e, path);
      } else if Lower(e.0) + "." <= path {
        RestIsProper(e.0, path);
        WalkerIsFlat(e.1, path[|e.0| + 1..]);
        ViaFirstPart(e, path);
      } else if path + "." <= Lower(e.0) {
        ViaLongName(e, path);
      } else {
        ViaElsewhere(e, path);
      }
    }
  }

  /** The check a configuration file goes through. */
  method ReadConfigFile(raw: map<string, Value>) returns (ok: bool)
    ensures ok <==> FlatAccepts(StringMap(raw), VERIFICATION_KEYS)
  {
    WalkerIsFlat(StringMap(raw), VERIFICATION_KEYS);
    ok := ValidateLDAPFileKeyIDs(StringMap(raw), VERIFICATION_KEYS);
  }

  // ---- Letter case -----------------------------------------------------------

  /** The same character, or the same ASCII letter in the other case. */
  predicate SameLetter(a: char, b: char) {
    a == b || ('A' <= a <= 'Z' && b as int == a as int + 32) || ('A' <= b <= 'Z' && a as int == b as int + 32)
  }

  predicate SameSpelling(a: string, b: string) {
    |a| == |b| && forall i | 0 <= i < |a| :: SameLetter(a[i], b[i])
  }

  /** Lowering equates exactly the spellings that differ in case, and leaves lower case alone. */
  lemma LowerExactly(a: string, b: string)
    ensures Lower(a) == Lower(b) <==> SameSpelling(a, b)
    ensures Lower(a) == b <==> SameSpelling(a, b) && forall i | 0 <= i < |b| :: !('A' <= b[i] <= 'Z')
  {
    if Lower(a) == Lower(b) {
      assert |Lower(a)| == |a| && |Lower(b)| == |b|;
      forall i | 0 <= i < |a|
        ensures SameLetter(a[i], b[i])
      {
        assert Lower(a)[i] == Lower(b)[i];
      }
    }
    if Lower(a) == b {
      forall i | 0 <= i < |a|
        ensures SameLetter(a[i], b[i]) && !('A' <= b[i] <= 'Z')
      {
        assert Lower(a)[i] == b[i];
      }
    }
  }

  /** What comes after the path in a key that leads past it. */
  function IDPart(key: string, path: string): string {
    if |key| > |path| then key[|path| + 1..] else ""
  }

  /**
   A key in another letter case, its ID part apart, gets the same verdict wherever it leads: to the path, towards it,
   past it, or elsewhere.
   */
  lemma CaseIsIgnored(others: map<string, Value>, a: string, b: string, child: Value, path: string)
    requires path != "" && a !in others && b !in others && SameSpelling(a, b) && IDPart(a, path) == IDPart(b, path)
    ensures Accepts(StringMap(others[a := child]), path) <==> Accepts(StringMap(others[b := child]), path)
  {
    LowerExactly(a, b);
    assert AcceptsEntry(a, child, path) <==> AcceptsEntry(b, child, path) by {
      if path + "." <= Lower(a) {
        assert |Lower(a)| == |a|;
      }
    }
    OneEntry(others, a, child, path);
    OneEntry(others, b, child, path);
  }

  lemma OneEntry(others: map<string, Value>, key: string, child: Value, path: string)
    requires key !in others
    ensures Accepts(StringMap(others[key := child]), path)
      <==> AcceptsEntry(key, child, path) && forall name | name in others :: AcceptsEntry(name, others[name], path)
  {
    var fields := others[key := child];
    var v := StringMap(fields);
    forall name | name in fields
      ensures (name, fields[name]) in Edges(v)
    {
    }
    assert key in fields && fields[key] == child;
    assert forall name | name in others :: name in fields && fields[name] == others[name];
  }
}
