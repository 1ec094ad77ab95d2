/** A key-value database with sorted keys, and the cursor loop that lists the keys with a
    prefix. */
module PrefixScan {
  import opened Common

  /** The order of the keys: lexicographic. */
  predicate Less(a: string, b: string) {
    if b == [] then false
    else if a == [] then true
    else a[0] < b[0] || (a[0] == b[0] && Less(a[1..], b[1..]))
  }

  lemma {:induction false} Total(a: string, b: string)
    ensures Less(a, b) || a == b || Less(b, a)
    ensures !(Less(a, b) && Less(b, a)) && !Less(a, a)
  {
    if a != [] {
      if b != [] && a[0] == b[0] {
        Total(a[1..], b[1..]);
        assert a == [a[0]] + a[1..] && b == [b[0]] + b[1..];
      }
      Total(a[1..], a[1..]);
    }
  }

  lemma {:induction false} Transitive(a: string, b: string, c: string)
    requires Less(a, b) && Less(b, c)
    ensures Less(a, c)
  {
    if a != [] && a[0] == b[0] && b[0] == c[0] {
      Transitive(a[1..], b[1..], c[1..]);
    }
  }

  /** A prefix comes before its extensions. */
  lemma {:induction false} PrefixFirst(p: string, k: string)
    requires p <= k
    ensures !Less(k, p)
  {
    if p != [] {
      PrefixFirst(p[1..], k[1..]);
    }
  }

  /** The keys with a prefix stand together: between the prefix and one of them there is
      no other key. */
  lemma {:induction false} PrefixInterval(p: string, k: string, later: string)
    requires !Less(k, p) && Less(k, later) && p <= later
    ensures p <= k
  {
    if p != [] {
      assert k != [] && p[0] == later[0];
      PrefixInterval(p[1..], k[1..], later[1..]);
      assert p == [p[0]] + p[1..] && k == [k[0]] + k[1..];
    }
  }

  predicate Sorted(keys: seq<string>) {
    forall i, j :: 0 <= i < j < |keys| ==> Less(keys[i], keys[j])
  }

  predicate Reached(from: string, k: string, strict: bool) {
    if strict then Less(from, k) else !Less(k, from)
  }

  /** The first key at or, if `strict`, behind a position. */
  ghost predicate IsFirst(keys: set<string>, from: string, strict: bool, r: Option<string>) {
    match r
    case None => forall k :: k in keys ==> !Reached(from, k, strict)
    case Some(f) => f in keys && Reached(from, f, strict) && forall k :: k in keys && Reached(from, k, strict) ==> k == f || Less(f, k)
  }

  class Db<V> {
    var data: map<string, V>

    constructor ()
      ensures data == map[]
    {
      data := map[];
    }

    method Set(key: string, value: V)
      modifies this
      ensures data == old(data)[key := value]
    {
      data := data[key := value];
    }

    method Get(key: string) returns (r: Option<V>)
      ensures r == if key in data then Some(data[key]) else None
    {
      r := if key in data then Some(data[key]) else None;
    }

    /** Deleting a key that is not there is an error. */
    method Delete(key: string) returns (ok: bool)
      modifies this
      ensures ok == (key in old(data)) && data == old(data) - {key}
    {
      ok := key in data;
      data := data - {key};
    }

    /** The two cursor moves of the scan: SetRange, and Next with `strict`. */
    method Seek(from: string, strict: bool) returns (r: Option<string>)
      ensures IsFirst(data.Keys, from, strict, r)
    {
      r := None;
      var rest := data.Keys;
      while rest != {}
        invariant rest <= data.Keys && IsFirst(data.Keys - rest, from, strict, r)
        decreases rest
      {
        var k :| k in rest;
        ghost var seen := data.Keys - rest;
        if (if strict then Less(from, k) else !Less(k, from)) && (r.None? || Less(k, r.value)) {
          if r.Some? {
            forall x | x in seen && Reached(from, x, strict) ensures Less(k, x) {
              if x != r.value {
                Transitive(k, r.value, x);
              }
            }
          }
          r := Some(k);
        } else if r.Some? {
          Total(k, r.value);
        }
        rest := rest - {k};
        assert data.Keys - rest == seen + {k};
      }
      assert data.Keys - rest == data.Keys;
    }

    /** Exactly the keys with the prefix, in order. */
    method ListKeysWithPrefix(prefix: string) returns (keys: seq<string>)
      ensures Sorted(keys)
      ensures forall k :: k in keys <==> k in data && prefix <= k
    {
      keys := [];
      var cursor := Seek(prefix, false);
      forall k | k in data && prefix <= k ensures Reached(prefix, k, false) {
        PrefixFirst(prefix, k);
      }
      while cursor.Some? && prefix <= cursor.value
        invariant Sorted(keys) && forall k :: k in keys ==> k in data && prefix <= k
        invariant cursor.Some? ==> cursor.value in data && forall k :: k in keys ==> Less(k, cursor.value)
        invariant cursor.Some? ==> !Less(cursor.value, prefix)
        invariant forall k :: k in data && prefix <= k && k !in keys ==>
                    cursor.Some? && (k == cursor.value || Less(cursor.value, k))
        decreases data.Keys - set k | k in keys
      {
        var key := cursor.value;
        Total(key, key);
        ghost var before := set k | k in keys;
        keys := keys + [key];
        assert (set k | k in keys) == before + {key} && key !in before;
        cursor := Seek(key, true);
        if cursor.Some? {
          forall k | k in keys ensures Less(k, cursor.value) {
            if k != key {
              Transitive(k, key, cursor.value);
            }
          }
          NotBefore(prefix, key, cursor.value);
        }
      }
      if cursor.Some? {
        forall k | k in data && prefix <= k ensures k in keys {
          if k !in keys && k != cursor.value {
            PrefixInterval(prefix, cursor.value, k);
          }
        }
      }
    }
  }

  lemma NotBefore(p: string, k: string, later: string)
    requires !Less(k, p) && Less(k, later)
    ensures !Less(later, p)
  {
    if Less(later, p) {
      Transitive(k, later, p);
    }
  }
}
