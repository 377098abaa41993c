/** Small facts about finite sets that several modules count with. */
module Common {

  datatype Option<+T> = None | Some(value: T)

  lemma {:induction false} SubsetSize<T>(small: set<T>, large: set<T>)
    requires small <= large
    ensures |small| <= |large|
    ensures |small| == |large| ==> small == large
  {
    assert large == small + (large - small);
  }

  /** The members of `ids` that `owner` gives to `user`. */
  ghost function Owned(owner: map<string, string>, ids: set<string>, user: string): set<string> {
    set i | i in ids && i in owner && owner[i] == user
  }

  lemma OwnedAdd(owner: map<string, string>, ids: set<string>, id: string, user: string)
    requires id in owner && id !in ids
    ensures |Owned(owner, ids + {id}, user)|
         == |Owned(owner, ids, user)| + if owner[id] == user then 1 else 0
  {
    if owner[id] == user {
      assert Owned(owner, ids + {id}, user) == Owned(owner, ids, user) + {id};
    } else {
      assert Owned(owner, ids + {id}, user) == Owned(owner, ids, user);
    }
  }

  lemma OwnedUnion(owner: map<string, string>, left: set<string>, right: set<string>, user: string)
    requires left !! right
    ensures |Owned(owner, left + right, user)| == |Owned(owner, left, user)| + |Owned(owner, right, user)|
  {
    assert Owned(owner, left + right, user) == Owned(owner, left, user) + Owned(owner, right, user);
  }

  /** Giving an owner to a new identifier does not change the shares of the old ones. */
  lemma OwnedExtend(owner: map<string, string>, id: string, who: string, ids: set<string>, user: string)
    requires id !in owner && ids <= owner.Keys
    ensures Owned(owner[id := who], ids, user) == Owned(owner, ids, user)
  {
  }

  lemma MapShrinks<K, V>(m: map<K, V>, key: K)
    ensures |m - {key}| <= |m|
    ensures key in m ==> |m - {key}| == |m| - 1
  {
    assert (m - {key}).Keys == m.Keys - {key};
    SubsetSize(m.Keys - {key}, m.Keys);
  }
}
