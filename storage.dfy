/** The browser-local user table kept under the key "table:users": a list of
    full user records (password included), keyed by email. */
module Storage {
  import opened Common

  /** `UserPreferences`: the only stored preference is the theme id. */
  datatype Preferences = Preferences(theme: string)

  /** `UserWithPreferences`: a full stored record. `preferences` is optional. */
  datatype UserRecord = UserRecord(
    firstName: string,
    lastName: string,
    email: string,
    country: string,
    password: string,
    preferences: Option<Preferences>)

  /** What the key "table:users" holds once parsed: nothing (a missing or
      empty item), a JSON value that is not a list, or a list of records. */
  datatype StoredTable = Absent | NotAList | List(records: seq<UserRecord>)

  /** No two records of `t` share an email. */
  ghost predicate UniqueEmails(t: seq<UserRecord>) {
    forall i, j | 0 <= i < j < |t| :: t[i].email != t[j].email
  }

  // ---------------------------------------------------------------------------
  // Lookup

  /** `Array.prototype.find` on the email: the first record, scanning from the
      front, whose email equals `email`. */
  function Find(t: seq<UserRecord>, email: string): (r: Option<UserRecord>)
    ensures r.Some? ==> r.value.email == email && r.value in t
    ensures r.None? <==> forall j | 0 <= j < |t| :: t[j].email != email
  {
    if t == [] then None
    else if t[0].email == email then Some(t[0])
    else Find(t[1..], email)
  }

  /** The last record of `t` whose email equals `email`. */
  function FindLast(t: seq<UserRecord>, email: string): (r: Option<UserRecord>)
    ensures r.Some? ==> r.value.email == email && r.value in t
    ensures r.None? <==> forall j | 0 <= j < |t| :: t[j].email != email
  {
    if t == [] then None
    else if t[|t| - 1].email == email then Some(t[|t| - 1])
    else FindLast(t[..|t| - 1], email)
  }

  /** The reverse lookup returns the record at the last index that carries
      the email. */
  lemma {:induction false} FindLastIsLast(t: seq<UserRecord>, email: string, i: nat)
    requires i < |t| && t[i].email == email
    requires forall j | i < j < |t| :: t[j].email != email
    ensures FindLast(t, email) == Some(t[i])
  {
    if i < |t| - 1 {
      assert t[|t| - 1].email != email;
      FindLastIsLast(t[..|t| - 1], email, i);
    }
  }

  /** The lookup returns the record at the first index that carries the email. */
  lemma {:induction false} FindFirst(t: seq<UserRecord>, email: string, i: nat)
    requires i < |t| && t[i].email == email
    requires forall j | 0 <= j < i :: t[j].email != email
    ensures Find(t, email) == Some(t[i])
  {
    if i > 0 {
      assert t[0].email != email;
      FindFirst(t[1..], email, i - 1);
    }
  }

  /** In a table with distinct emails, the lookup returns the one record
      carrying the email. */
  lemma FindUnique(t: seq<UserRecord>, i: nat)
    requires UniqueEmails(t) && i < |t|
    ensures Find(t, t[i].email) == Some(t[i])
  {
    FindFirst(t, t[i].email, i);
  }

  // ---------------------------------------------------------------------------
  // The Map keyed by email, as its sequence of values in insertion order

  /** `Map.prototype.set(r.email, r)` on a map whose values, in insertion
      order, are `entries`: an entry with the same key keeps its position and
      takes the new value; a new key goes to the end. */
  function Upsert(entries: seq<UserRecord>, r: UserRecord): (u: seq<UserRecord>)
    ensures |u| == if Find(entries, r.email).Some? then |entries| else |entries| + 1
    ensures forall x | x in u :: x == r || x in entries
  {
    if entries == [] then [r]
    else if entries[0].email == r.email then [r] + entries[1..]
    else [entries[0]] + Upsert(entries[1..], r)
  }

  /** `new Map(t.map((user) => [user.email, user]))`, read back as its values:
      each email at the position of its first occurrence, with its last value. */
  function MapOf(t: seq<UserRecord>): (m: seq<UserRecord>)
    ensures UniqueEmails(m)
  {
    if t == [] then []
    else
      var init := MapOf(t[..|t| - 1]);
      UpsertKeepsUnique(init, t[|t| - 1]);
      Upsert(init, t[|t| - 1])
  }

  /** The list `saveUserToLocalStorage(r)` writes back when the stored list is
      `t`: the map of `t` with `r` set. */
  function Saved(t: seq<UserRecord>, r: UserRecord): (u: seq<UserRecord>)
    ensures UniqueEmails(u)
    ensures Find(u, r.email) == Some(r)
  {
    UpsertKeepsUnique(MapOf(t), r);
    FindUpserted(MapOf(t), r);
    Upsert(MapOf(t), r)
  }

  // ---------------------------------------------------------------------------
  // Lemmas about the map operations

  lemma {:induction false} UpsertKeepsUnique(entries: seq<UserRecord>, r: UserRecord)
    requires UniqueEmails(entries)
    ensures UniqueEmails(Upsert(entries, r))
  {
    if entries != [] && entries[0].email != r.email {
      var tail := entries[1..];
      assert UniqueEmails(tail) by {
        forall i, j | 0 <= i < j < |tail| ensures tail[i].email != tail[j].email {
          assert tail[i] == entries[i + 1] && tail[j] == entries[j + 1];
        }
      }
      UpsertKeepsUnique(tail, r);
      var rest := Upsert(tail, r);
      forall k | 0 <= k < |rest| ensures rest[k].email != entries[0].email {
        assert rest[k] in rest;
        if rest[k] != r {
          var m :| 0 <= m < |tail| && tail[m] == rest[k];
          assert tail[m] == entries[m + 1];
        }
      }
      var u := Upsert(entries, r);
      assert u == [entries[0]] + rest;
      forall i, j | 0 <= i < j < |u| ensures u[i].email != u[j].email {
        if i == 0 {
          assert u[j] == rest[j - 1];
        } else {
          assert u[i] == rest[i - 1] && u[j] == rest[j - 1];
        }
      }
    } else if entries != [] {
      var u := Upsert(entries, r);
      forall i, j | 0 <= i < j < |u| ensures u[i].email != u[j].email {
        if i == 0 {
          assert u[j] == entries[j];
        } else {
          assert u[i] == entries[i] && u[j] == entries[j];
        }
      }
    }
  }

  /** Setting a key that is present replaces its entry in place. */
  lemma {:induction false} UpsertReplaces(entries: seq<UserRecord>, r: UserRecord, i: nat)
    requires UniqueEmails(entries)
    requires i < |entries| && entries[i].email == r.email
    ensures Upsert(entries, r) == entries[i := r]
  {
    if i > 0 {
      assert entries[0].email != entries[i].email;
      var tail := entries[1..];
      assert UniqueEmails(tail) by {
        forall a, b | 0 <= a < b < |tail| ensures tail[a].email != tail[b].email {
          assert tail[a] == entries[a + 1] && tail[b] == entries[b + 1];
        }
      }
      UpsertReplaces(tail, r, i - 1);
      assert [entries[0]] + tail[i - 1 := r] == entries[i := r];
    }
  }

  /** Setting a key that is absent appends the new entry. */
  lemma {:induction false} UpsertAppends(entries: seq<UserRecord>, r: UserRecord)
    requires forall j | 0 <= j < |entries| :: entries[j].email != r.email
    ensures Upsert(entries, r) == entries + [r]
  {
    if entries != [] {
      assert entries[0].email != r.email;
      UpsertAppends(entries[1..], r);
      assert [entries[0]] + (entries[1..] + [r]) == entries + [r];
    }
  }

  /** After setting `r`, looking up its email finds `r`. */
  lemma {:induction false} FindUpserted(entries: seq<UserRecord>, r: UserRecord)
    ensures Find(Upsert(entries, r), r.email) == Some(r)
  {
    if entries != [] && entries[0].email != r.email {
      FindUpserted(entries[1..], r);
    }
  }

  /** Setting `r` does not change the lookup of any other email. */
  lemma {:induction false} FindUpsertOther(entries: seq<UserRecord>, r: UserRecord, email: string)
    requires email != r.email
    ensures Find(Upsert(entries, r), email) == Find(entries, email)
  {
    if entries != [] && entries[0].email != r.email {
      FindUpsertOther(entries[1..], r, email);
    }
  }

  /** Setting the same entry twice is setting it once. */
  lemma {:induction false} UpsertIdempotent(entries: seq<UserRecord>, r: UserRecord)
    ensures Upsert(Upsert(entries, r), r) == Upsert(entries, r)
  {
    if entries != [] && entries[0].email != r.email {
      UpsertIdempotent(entries[1..], r);
    }
  }

  /** A list whose emails are already distinct goes through the map unchanged. */
  lemma {:induction false} MapOfIdentity(t: seq<UserRecord>)
    requires UniqueEmails(t)
    ensures MapOf(t) == t
  {
    if t != [] {
      var init, last := t[..|t| - 1], t[|t| - 1];
      assert UniqueEmails(init);
      MapOfIdentity(init);
      forall j | 0 <= j < |init| ensures init[j].email != last.email {
        assert init[j] == t[j];
      }
      UpsertAppends(init, last);
      assert init + [last] == t;
    }
  }

  /** The map keeps, for each email, the last record written with it. */
  lemma {:induction false} FindMapOfIsLast(t: seq<UserRecord>, email: string)
    ensures Find(MapOf(t), email) == FindLast(t, email)
  {
    if t != [] {
      var init, last := t[..|t| - 1], t[|t| - 1];
      if last.email == email {
        FindUpserted(MapOf(init), last);
      } else {
        FindUpsertOther(MapOf(init), last, email);
        FindMapOfIsLast(init, email);
      }
    }
  }

  // ---------------------------------------------------------------------------
  // Properties of saveUserToLocalStorage

  /** Saving a record whose email is stored replaces that record where it is:
      the length and every other position are unchanged. */
  lemma SaveReplacesInPlace(t: seq<UserRecord>, r: UserRecord, i: nat)
    requires UniqueEmails(t)
    requires i < |t| && t[i].email == r.email
    ensures Saved(t, r) == t[i := r]
    ensures |Saved(t, r)| == |t|
  {
    MapOfIdentity(t);
    UpsertReplaces(t, r, i);
  }

  /** Saving a record with a new email into a list with distinct emails
      appends it at the end: the list grows by exactly that record. */
  lemma SaveAppends(t: seq<UserRecord>, r: UserRecord)
    requires UniqueEmails(t)
    requires forall j | 0 <= j < |t| :: t[j].email != r.email
    ensures Saved(t, r) == t + [r]
  {
    MapOfIdentity(t);
    UpsertAppends(t, r);
  }

  /** Saving leaves the lookup of every other email as the map had it: the
      last record written with that email. */
  lemma SaveKeepsOthers(t: seq<UserRecord>, r: UserRecord, email: string)
    requires email != r.email
    ensures Find(Saved(t, r), email) == FindLast(t, email)
  {
    FindUpsertOther(MapOf(t), r, email);
    FindMapOfIsLast(t, email);
  }

  /** With distinct stored emails, saving leaves the lookup of every other
      email exactly as it was. */
  lemma SaveKeepsStoredLookup(t: seq<UserRecord>, r: UserRecord, email: string)
    requires UniqueEmails(t)
    requires email != r.email
    ensures Find(Saved(t, r), email) == Find(t, email)
  {
    FindUpsertOther(MapOf(t), r, email);
    MapOfIdentity(t);
  }

  /** Saving the same record twice yields the same list as saving it once. */
  lemma SaveIdempotent(t: seq<UserRecord>, r: UserRecord)
    ensures Saved(Saved(t, r), r) == Saved(t, r)
  {
    MapOfIdentity(Saved(t, r));
    UpsertIdempotent(MapOf(t), r);
  }

  // ---------------------------------------------------------------------------
  // The imperative Map used by saveUserToLocalStorage

  /** A JavaScript `Map` from email to record: its keys in insertion order and
      its contents; every key is a record's own email. */
  ghost predicate EmailMap(keys: seq<string>, vals: map<string, UserRecord>) {
    (forall k :: k in vals <==> k in keys) &&
    (forall i, j | 0 <= i < j < |keys| :: keys[i] != keys[j]) &&
    (forall k | k in vals :: vals[k].email == k)
  }

  /** `Array.from(map.values())`: the values in key insertion order. */
  function Values(keys: seq<string>, vals: map<string, UserRecord>): seq<UserRecord>
    requires forall k | k in keys :: k in vals
  {
    if keys == [] then [] else [vals[keys[0]]] + Values(keys[1..], vals)
  }

  lemma {:induction false} ValuesFrame(keys: seq<string>, vals: map<string, UserRecord>, k: string, v: UserRecord)
    requires forall x | x in keys :: x in vals
    requires k !in keys
    ensures Values(keys, vals[k := v]) == Values(keys, vals)
  {
    if keys != [] {
      ValuesFrame(keys[1..], vals, k, v);
    }
  }

  lemma {:induction false} ValuesSet(keys: seq<string>, vals: map<string, UserRecord>, u: UserRecord)
    requires forall k | k in keys :: k in vals && vals[k].email == k
    requires forall i, j | 0 <= i < j < |keys| :: keys[i] != keys[j]
    ensures u.email in keys ==> Values(keys, vals[u.email := u]) == Upsert(Values(keys, vals), u)
    ensures u.email !in keys ==> Values(keys + [u.email], vals[u.email := u]) == Upsert(Values(keys, vals), u)
  {
    var m := vals[u.email := u];
    if keys == [] {
      assert Values([u.email], m) == [u];
    } else {
      var k0, rest := keys[0], keys[1..];
      assert forall i, j | 0 <= i < j < |rest| :: rest[i] != rest[j] by {
        forall i, j | 0 <= i < j < |rest| ensures rest[i] != rest[j] {
          assert rest[i] == keys[i + 1] && rest[j] == keys[j + 1];
        }
      }
      ValuesSet(rest, vals, u);
      if k0 == u.email {
        assert u.email !in rest by {
          forall i | 0 <= i < |rest| ensures rest[i] != k0 {
            assert rest[i] == keys[i + 1];
          }
        }
        ValuesFrame(rest, vals, u.email, u);
      } else if u.email !in keys {
        assert (keys + [u.email])[1..] == rest + [u.email];
      }
    }
  }

  /** `map.set(u.email, u)` on an imperative map. */
  method MapSet(keys: seq<string>, vals: map<string, UserRecord>, u: UserRecord)
    returns (keys': seq<string>, vals': map<string, UserRecord>)
    requires EmailMap(keys, vals)
    ensures EmailMap(keys', vals')
    ensures Values(keys', vals') == Upsert(Values(keys, vals), u)
  {
    ValuesSet(keys, vals, u);
    if u.email in vals {
      keys' := keys;
    } else {
      keys' := keys + [u.email];
    }
    vals' := vals[u.email := u];
  }

  // ---------------------------------------------------------------------------
  // The stored table

  /** The localStorage item "table:users", read and written wholesale. */
  class UsersTable {
    var stored: StoredTable

    constructor (stored: StoredTable)
      ensures this.stored == stored
    {
      this.stored := stored;
    }

    /** `getUsersFromLocalStorage`: the stored list, or the empty list when
        the item is missing or does not hold a list. */
    function Users(): seq<UserRecord>
      reads this
    {
      if stored.List? then stored.records else []
    }

    /** `getUniqueUserByEmail`: the first stored record with the email. */
    function GetUniqueUserByEmail(email: string): (r: Option<UserRecord>)
      reads this
      ensures r.Some? ==> r.value.email == email && r.value in Users()
      ensures r.None? <==> forall j | 0 <= j < |Users()| :: Users()[j].email != email
      ensures !stored.List? ==> r.None?
    {
      Find(Users(), email)
    }

    /** `saveUserToLocalStorage`: rebuild the map keyed by email from the
        stored list, set `user`, and write the values back as the new list. */
    method Save(user: UserRecord)
      modifies this
      ensures stored == List(Saved(old(Users()), user))
      ensures !old(stored).List? ==> stored == List([user])
    {
      var data := Users();
      var keys: seq<string> := [];
      var vals: map<string, UserRecord> := map[];
      var i := 0;
      while i < |data|
        invariant 0 <= i <= |data|
        invariant EmailMap(keys, vals)
        invariant Values(keys, vals) == MapOf(data[..i])
      {
        keys, vals := MapSet(keys, vals, data[i]);
        assert data[..i + 1][..i] == data[..i];
        i := i + 1;
      }
      assert data[..i] == data;
      keys, vals := MapSet(keys, vals, user);
      stored := List(Values(keys, vals));
    }
  }
}
