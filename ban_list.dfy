/**
 * The ban check of the `/` route: the client address is banned when some entry
 * of the configured ban list matches it. An entry without `*` is compared by
 * string equality; an entry with `*` is compiled by `PatternMatcher`.
 */
module BanList {
  import opened Common
  import opened PatternMatcher

  /** The entries whose meaning this model gives: any literal, and the covered wildcard patterns. */
  predicate SupportedEntry(entry: string) {
    '*' in entry ==> Supported(entry)
  }

  predicate SupportedList(banlist: seq<string>) {
    forall i :: 0 <= i < |banlist| ==> SupportedEntry(banlist[i])
  }

  /** The callback given to `.some`: one entry against the request address. */
  predicate EntryMatches(entry: string, addr: string)
    requires SupportedEntry(entry)
  {
    if '*' in entry then WildcardMatches(entry, addr) else entry == addr
  }

  /** `banlist.some(…)`: some entry matches the request address. */
  function IsBanned(addr: string, banlist: seq<string>): (banned: bool)
    requires SupportedList(banlist)
    ensures banned <==> exists i :: 0 <= i < |banlist| && EntryMatches(banlist[i], addr)
  {
    if banlist == [] then false
    else if EntryMatches(banlist[0], addr) then true
    else
      var rest := IsBanned(addr, banlist[1..]);
      assert forall i :: 1 <= i < |banlist| ==> banlist[i] == banlist[1..][i - 1];
      rest
  }

  /** An empty ban list bans nothing. */
  lemma EmptyListBansNothing(addr: string)
    ensures !IsBanned(addr, [])
  {
  }

  /** An entry without `*` bans exactly the identical address string. */
  lemma LiteralEntryIsExact(entry: string, addr: string)
    requires '*' !in entry
    ensures IsBanned(addr, [entry]) <==> addr == entry
  {
  }

  /** Joining two ban lists bans what either of them bans, whatever the order. */
  lemma {:induction false} JoinedListsAreOr(addr: string, a: seq<string>, b: seq<string>)
    requires SupportedList(a) && SupportedList(b)
    ensures SupportedList(a + b) && SupportedList(b + a)
    ensures IsBanned(addr, a + b) <==> IsBanned(addr, a) || IsBanned(addr, b)
    ensures IsBanned(addr, a + b) == IsBanned(addr, b + a)
  {
    assert SupportedList(a + b) && SupportedList(b + a);
    if IsBanned(addr, a) {
      var i :| 0 <= i < |a| && EntryMatches(a[i], addr);
      assert (a + b)[i] == a[i] && (b + a)[|b| + i] == a[i];
    }
    if IsBanned(addr, b) {
      var i :| 0 <= i < |b| && EntryMatches(b[i], addr);
      assert (a + b)[|a| + i] == b[i] && (b + a)[i] == b[i];
    }
    if IsBanned(addr, a + b) {
      var i :| 0 <= i < |a + b| && EntryMatches((a + b)[i], addr);
      if i < |a| {
        assert (a + b)[i] == a[i];
      } else {
        assert (a + b)[i] == b[i - |a|];
      }
    }
    if IsBanned(addr, b + a) {
      var i :| 0 <= i < |b + a| && EntryMatches((b + a)[i], addr);
      if i < |b| {
        assert (b + a)[i] == b[i];
      } else {
        assert (b + a)[i] == a[i - |b|];
      }
    }
  }

  /** A one-entry list holding a wildcard pattern bans what the compiled pattern matches. */
  lemma WildcardEntryBans(p: string, addr: string)
    requires '*' in p && Supported(p)
    ensures SupportedList([p]) && (IsBanned(addr, [p]) <==> WildcardMatches(p, addr))
  {
  }
}
