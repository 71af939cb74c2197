/** The keyring: one active key and retained decode keys, replaced as one snapshot. */
module Keyring {
  import opened Text
  import opened Types

  type Byte = b: int | 0 <= b < 256

  type Secret = seq<Byte>

  datatype Key = Key(id: string, secret: Secret)

  /** The snapshot both rotation and lookup work on. */
  datatype Ring = Ring(active: string, keys: map<string, Secret>)

  predicate KeyChar(c: char) {
    'a' <= c <= 'z' || 'A' <= c <= 'Z' || '0' <= c <= '9' || c == '_' || c == '-'
  }

  predicate ValidKeyId(value: string) {
    value != "" && ByteLength(value) <= 64 && forall i :: 0 <= i < |value| ==> KeyChar(value[i])
  }

  /** What the token envelope relies on. */
  lemma KeyIdsHaveNoDot(value: string)
    requires ValidKeyId(value)
    ensures '.' !in value
  {
    forall i | 0 <= i < |value| ensures value[i] != '.' {
      assert KeyChar(value[i]);
    }
  }

  function KeyIds(keys: seq<Key>): (ids: seq<string>)
    ensures |ids| == |keys|
  {
    seq(|keys|, i requires 0 <= i < |keys| => keys[i].id)
  }

  /** Keys that may form a ring. */
  ghost predicate Acceptable(keys: seq<Key>) {
    && (forall i :: 0 <= i < |keys| ==> ValidKeyId(keys[i].id) && |keys[i].secret| == 32)
    && Distinct(KeyIds(keys))
  }

  /** ring holds exactly these keys, the first one active. */
  ghost predicate Holds(ring: Ring, keys: seq<Key>) {
    && keys != [] && ring.active == keys[0].id
    && ring.keys.Keys == (set i | 0 <= i < |keys| :: keys[i].id)
    && forall i :: 0 <= i < |keys| ==> keys[i].id in ring.keys && ring.keys[keys[i].id] == keys[i].secret
  }

  /** A ring can encode, and every key in it can be used. */
  ghost predicate Usable(ring: Ring) {
    && ring.active in ring.keys
    && forall id <- ring.keys :: ValidKeyId(id) && |ring.keys[id]| == 32
  }

  lemma HeldIsUsable(ring: Ring, keys: seq<Key>)
    requires Acceptable(keys) && Holds(ring, keys)
    ensures Usable(ring)
  {
  }

  /** Acceptable keys determine the ring. */
  lemma HeldIsUnique(a: Ring, b: Ring, keys: seq<Key>)
    requires Holds(a, keys) && Holds(b, keys)
    ensures a == b
  {
    forall id | id in a.keys ensures a.keys[id] == b.keys[id] {
      var i :| 0 <= i < |keys| && keys[i].id == id;
      assert keys[i].id in a.keys;
    }
    assert a.keys == b.keys;
  }

  class KeyStore {
    var active: string
    var keys: map<string, Secret>

    function View(): Ring
      reads this
    {
      Ring(active, keys)
    }

    constructor ()
      ensures View() == Ring("", map[])
    {
      active := "";
      keys := map[];
    }

    /** Replaces the whole ring exactly when the keys are acceptable; a refusal leaves the old ring. */
    method Rotate(active: Key, retained: seq<Key>) returns (ok: bool)
      modifies this
      ensures ok <==> Acceptable([active] + retained)
      ensures ok ==> Holds(View(), [active] + retained)
      ensures !ok ==> View() == old(View())
    {
      var keys: map<string, Secret> := map[];
      var all := [active] + retained;
      ghost var ids := KeyIds(all);
      for i := 0 to |all|
        invariant View() == old(View())
        invariant forall j :: 0 <= j < i ==> ValidKeyId(all[j].id) && |all[j].secret| == 32
        invariant Distinct(ids[..i])
        invariant keys.Keys == set j | 0 <= j < i :: all[j].id
        invariant forall j :: 0 <= j < i ==> all[j].id in keys && keys[all[j].id] == all[j].secret
      {
        var key := all[i];
        if !ValidKeyId(key.id) || |key.secret| != 32 {
          return false;
        }
        if key.id in keys {
          var j :| 0 <= j < i && all[j].id == key.id;
          assert ids[j] == ids[i];
          return false;
        }
        keys := keys[key.id := key.secret];
        assert ids[..i + 1] == ids[..i] + [key.id];
        forall j | 0 <= j < i ensures ids[j] != key.id {
          assert all[j].id in keys;
        }
      }
      assert ids[..|all|] == ids;
      this.active := active.id;
      this.keys := keys;
      ok := true;
    }

    method ActiveKey() returns (id: string, secret: Secret, exists_: bool)
      ensures id == active && (exists_ <==> active in keys) && (exists_ ==> secret == keys[active])
    {
      id := active;
      exists_ := active in keys;
      secret := if exists_ then keys[active] else [];
    }

    method Lookup(id: string) returns (secret: Option<Secret>)
      ensures secret == if id in keys then Some(keys[id]) else None
    {
      secret := if id in keys then Some(keys[id]) else None;
    }
  }
}
