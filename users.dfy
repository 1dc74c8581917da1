/** The part of `res.users` the limit and login code reads: whether a user
    exists, is active, and is a shared (portal) user. */
module Users {

  datatype User = User(name: string, login: string, active: bool, share: bool)

  /** The domain `[('share', '=', False), ('active', '=', True)]`. */
  predicate IsActiveInternal(u: User) {
    !u.share && u.active
  }

  /** `search_count` with that domain over the user table. */
  function ActiveInternalCount(users: seq<User>): (n: nat)
    ensures n <= |users|
    decreases |users|
  {
    if users == [] then 0
    else ActiveInternalCount(users[..|users| - 1]) + (if IsActiveInternal(users[|users| - 1]) then 1 else 0)
  }

  /** Counting distributes over concatenation of tables. */
  lemma {:induction false} ActiveInternalCountAppend(a: seq<User>, b: seq<User>)
    ensures ActiveInternalCount(a + b) == ActiveInternalCount(a) + ActiveInternalCount(b)
    decreases |b|
  {
    if b != [] {
      var b' := b[..|b| - 1];
      assert (a + b)[..|a + b| - 1] == a + b';
      ActiveInternalCountAppend(a, b');
    } else {
      assert a + b == a;
    }
  }
}
