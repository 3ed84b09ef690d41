/** The server's `users` table: a `Map<string, User>` keyed by connection id.
    A JavaScript `Map` remembers insertion order, and `Array.from(users.values())`
    lists the entries in that order, so the table is a sequence of entries
    with pairwise distinct ids. `set` on a present key replaces the entry where
    it stands; on a new key it appends. `delete` removes the entry. */
module Registry {
  import opened Wrappers
  import opened ChatTypes
  import Seqs

  type Users = seq<User>

  /** No two entries share a connection id (the `Map` key). */
  predicate KeysDistinct(us: Users) {
    forall i, j :: 0 <= i < j < |us| ==> us[i].id != us[j].id
  }

  /** Some entry has connection id `id`. */
  predicate HasKey(us: Users, id: string) {
    exists i :: 0 <= i < |us| && us[i].id == id
  }

  /** The position of the entry stored under `id`, if any. */
  function IndexOf(us: Users, id: string): (r: Option<nat>)
    ensures r.Some? ==> r.value < |us| && us[r.value].id == id
    ensures r.Some? ==> forall j :: 0 <= j < r.value ==> us[j].id != id
    ensures r.None? <==> !HasKey(us, id)
    decreases |us|
  {
    if |us| == 0 then None
    else if us[0].id == id then Some(0)
    else
      match IndexOf(us[1..], id)
      case None =>
        assert forall i :: 1 <= i < |us| ==> us[i] == us[1..][i - 1];
        None
      case Some(k) => Some(k + 1)
  }

  /** `users.get(id)`: the entry stored under `id`, if any. */
  function Get(us: Users, id: string): (r: Option<User>)
    ensures r.Some? <==> HasKey(us, id)
    ensures r.Some? ==> r.value in us && r.value.id == id
  {
    match IndexOf(us, id)
    case Some(k) => Some(us[k])
    case None => None
  }

  /** `users.set(u.id, u)`. */
  function Set(us: Users, u: User): (r: Users)
    ensures Get(r, u.id) == Some(u)
    ensures forall id :: id != u.id ==> Get(r, id) == Get(us, id)
    ensures HasKey(us, u.id) ==> |r| == |us|
    ensures !HasKey(us, u.id) ==> r == us + [u]
    ensures forall i :: 0 <= i < |us| && us[i].id != u.id ==> i < |r| && r[i] == us[i]
    ensures forall x :: x in r ==> x == u || x in us
    ensures KeysDistinct(us) ==> KeysDistinct(r)
  {
    match IndexOf(us, u.id)
    case Some(k) =>
      var r := us[k := u];
      assert forall id :: id != u.id ==> IndexOf(r, id) == IndexOf(us, id) by {
        forall id | id != u.id ensures IndexOf(r, id) == IndexOf(us, id) {
          IndexOfUpdate(us, k, u, id);
        }
      }
      IndexOfFirst(r, k, u.id);
      r
    case None =>
      var r := us + [u];
      assert forall id :: id != u.id ==> IndexOf(r, id) == IndexOf(us, id) by {
        forall id | id != u.id ensures IndexOf(r, id) == IndexOf(us, id) {
          IndexOfAppend(us, u, id);
        }
      }
      IndexOfAppend(us, u, u.id);
      r
  }

  /** The first position holding `id` is the one `IndexOf` finds. */
  lemma {:induction false} IndexOfFirst(us: Users, k: nat, id: string)
    requires k < |us| && us[k].id == id
    requires forall j :: 0 <= j < k ==> us[j].id != id
    ensures IndexOf(us, id) == Some(k)
    decreases |us|
  {
  }

  /** Replacing an entry by one with the same id does not move any other key. */
  lemma {:induction false} IndexOfUpdate(us: Users, k: nat, u: User, id: string)
    requires k < |us| && us[k].id == u.id && id != u.id
    ensures IndexOf(us[k := u], id) == IndexOf(us, id)
    decreases |us|
  {
    if |us| > 0 && us[0].id != id && k > 0 {
      assert us[k := u][1..] == us[1..][k - 1 := u];
      IndexOfUpdate(us[1..], k - 1, u, id);
    }
  }

  /** Appending an entry does not move any key already present. */
  lemma {:induction false} IndexOfAppend(us: Users, u: User, id: string)
    requires id != u.id || !HasKey(us, id)
    ensures id != u.id ==> IndexOf(us + [u], id) == IndexOf(us, id)
    ensures id == u.id ==> IndexOf(us + [u], id) == Some(|us|)
    decreases |us|
  {
    if |us| > 0 && us[0].id != id {
      assert (us + [u])[1..] == us[1..] + [u];
      assert forall i :: 1 <= i < |us| ==> us[i] == us[1..][i - 1];
      IndexOfAppend(us[1..], u, id);
    }
  }

  /** `get` looks at the first entry, then at the rest. */
  lemma GetCons(u: User, rest: Users, id: string)
    ensures Get([u] + rest, id) == if u.id == id then Some(u) else Get(rest, id)
  {
    assert ([u] + rest)[1..] == rest;
  }

  /** `users.delete(id)`. */
  function Delete(us: Users, id: string): (r: Users)
    ensures Get(r, id) == None
    ensures forall other :: other != id ==> Get(r, other) == Get(us, other)
    ensures Seqs.IsSubseq(r, us)
    ensures forall x :: x in r ==> x in us
    ensures !HasKey(us, id) ==> r == us
    ensures KeysDistinct(us) ==> KeysDistinct(r)
    decreases |us|
  {
    if |us| == 0 then []
    else
      var rest := Delete(us[1..], id);
      assert us == [us[0]] + us[1..];
      assert forall other :: Get(us, other) == if us[0].id == other then Some(us[0]) else Get(us[1..], other) by {
        forall other { GetCons(us[0], us[1..], other); }
      }
      if us[0].id == id then rest
      else
        assert KeysDistinct(us) ==> forall x :: x in rest ==> x.id != us[0].id;
        assert forall other :: Get([us[0]] + rest, other) == if us[0].id == other then Some(us[0]) else Get(rest, other) by {
          forall other { GetCons(us[0], rest, other); }
        }
        assert ([us[0]] + rest)[1..] == rest;
        [us[0]] + rest
  }
}
