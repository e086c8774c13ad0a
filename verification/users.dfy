/**
 * The display-name map: lookup key (display name up to the first hyphen)
 * to login name, built from the project's assignable users.
 */
module Users {
  import opened Text
  import opened Dict

  /** One assignable user of the project: login name and display name. */
  datatype User = User(name: string, displayName: string)

  /** `displayName.split('-')[0]`, untrimmed. */
  function NameKey(u: User): string
  {
    BeforeHyphen(u.displayName)
  }

  function UserEntries(users: seq<User>): (ps: Entries)
    ensures |ps| == |users|
    ensures forall i :: 0 <= i < |users| ==> ps[i] == (NameKey(users[i]), users[i].name)
  {
    seq(|users|, i requires 0 <= i < |users| => (NameKey(users[i]), users[i].name))
  }

  /** The name map: one entry per distinct lookup key; when two users share
      a key, the later user's login name wins. */
  function NameMap(users: seq<User>): (names: map<string, string>)
    ensures names.Keys == set i | 0 <= i < |users| :: NameKey(users[i])
    ensures forall i :: 0 <= i < |users| && (forall j :: i < j < |users| ==> NameKey(users[j]) != NameKey(users[i]))
              ==> names[NameKey(users[i])] == users[i].name
  {
    EntryKeys(users);
    EntriesLastFor(users);
    Assign(map[], UserEntries(users))
  }

  /** The keys of the entries are the users' lookup keys. */
  lemma EntryKeys(users: seq<User>)
    ensures KeysOf(UserEntries(users)) == set i | 0 <= i < |users| :: NameKey(users[i])
  {
    var ps := UserEntries(users);
    forall k | k in KeysOf(ps) ensures exists i :: 0 <= i < |users| && NameKey(users[i]) == k {
      var i :| 0 <= i < |ps| && ps[i].0 == k;
      assert NameKey(users[i]) == k;
    }
    forall i | 0 <= i < |users| ensures NameKey(users[i]) in KeysOf(ps) {
      assert ps[i].0 == NameKey(users[i]);
    }
  }

  /** A user whose lookup key no later user shares is the surviving entry. */
  lemma EntriesLastFor(users: seq<User>)
    ensures forall i :: 0 <= i < |users| && (forall j :: i < j < |users| ==> NameKey(users[j]) != NameKey(users[i]))
              ==> LastFor(UserEntries(users), i)
  {
  }

}
