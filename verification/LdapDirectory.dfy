/** Password login against the directory: search for the user, bind as the user, resolve the groups. */
module LdapDirectory {
  import opened Prelude
  import opened LdapIdentity
  import LdapTokens

  /** values are those of the one attribute a search asks for. */
  datatype Entry = Entry(dn: string, parses: bool, values: seq<string>)

  datatype SearchResult = SearchResult(success: bool, referrals: nat, entries: seq<Option<Entry>>)

  datatype BindResult = Bound | InvalidCredentials | BindFailed

  /** What the directory will answer, and after how many calls the request's deadline has passed. */
  datatype Directory = Directory(
    connects: bool, searchBinds: bool, users: Option<SearchResult>,
    reconnects: bool, userBinds: BindResult, groups: Option<SearchResult>, deadline: nat)

  datatype Error = BadCredentials | DirectoryUnavailable

  datatype Call =
    | Open(conn: nat) | Close(conn: nat)
    | BindAs(conn: nat, dn: string, password: string)
    | SearchUser(conn: nat, username: string)
    | SearchGroups(conn: nat, dn: string)

  predicate Complete(result: Option<SearchResult>) {
    result.Some? && result.value.success && result.value.referrals == 0
  }

  function IdentityOf(entry: Option<Entry>): Option<string> {
    if entry.None? || |entry.value.values| != 1 || !ValidIdentity(entry.value.values[0]) then None
    else Some(entry.value.values[0])
  }

  /** An identity is the only value of the attribute, and an acceptable name. */
  lemma IdentityExactly(entry: Option<Entry>, name: string)
    ensures IdentityOf(entry) == Some(name) <==> entry.Some? && entry.value.values == [name] && ValidIdentity(name)
  {
    if entry.Some? && |entry.value.values| == 1 {
      assert entry.value.values == [entry.value.values[0]];
    }
  }

  predicate AllIdentified(entries: seq<Option<Entry>>) {
    forall i | 0 <= i < |entries| :: IdentityOf(entries[i]).Some?
  }

  function Identities(entries: seq<Option<Entry>>): seq<string>
    requires AllIdentified(entries)
  {
    seq(|entries|, i requires 0 <= i < |entries| => IdentityOf(entries[i]).value)
  }

  /** Each value once, where it first occurs. */
  function FirstOccurrences(s: seq<string>): seq<string> {
    if s == [] then []
    else
      var front, last := FirstOccurrences(s[..|s| - 1]), s[|s| - 1];
      if last in front then front else front + [last]
  }

  ghost predicate FirstAt(s: seq<string>, i: int, x: string) {
    0 <= i < |s| && s[i] == x && x !in s[..i]
  }

  lemma {:induction false} FirstOccurrencesSame(s: seq<string>)
    ensures forall x :: x in FirstOccurrences(s) <==> x in s
    ensures forall i, j | 0 <= i < j < |FirstOccurrences(s)| :: FirstOccurrences(s)[i] != FirstOccurrences(s)[j]
  {
    if s != [] {
      FirstOccurrencesSame(s[..|s| - 1]);
      assert s == s[..|s| - 1] + [s[|s| - 1]];
    }
  }

  lemma FirstIsLeast(s: seq<string>, a: int, x: string, k: int)
    requires FirstAt(s, a, x) && 0 <= k < |s| && s[k] == x
    ensures a <= k
  {
    assert forall m | 0 <= m < a :: s[..a][m] in s[..a];
    assert forall m | 0 <= m < a :: s[m] == s[..a][m];
  }

  /** Two values the list has already, in the order it already has. */
  lemma {:induction false} OrderedByFirst(s: seq<string>, i: int, j: int, a: int, b: int)
    requires 0 <= i < j < |FirstOccurrences(s)|
    requires FirstAt(s, a, FirstOccurrences(s)[i]) && FirstAt(s, b, FirstOccurrences(s)[j])
    ensures a < b
  {
    var front, last := s[..|s| - 1], s[|s| - 1];
    var v, u := FirstOccurrences(front), FirstOccurrences(s);
    FirstOccurrencesSame(front);
    assert u[i] == v[i] && v[i] in v;
    var k :| 0 <= k < |front| && front[k] == v[i];
    FirstIsLeast(s, a, v[i], k);
    assert front[..a] == s[..a];
    if b < |front| {
      assert front[..b] == s[..b] && front[b] in front;
      assert j < |v|;
      OrderedByFirst(front, i, j, a, b);
    }
  }

  /** The same values, none twice, and ordered by where the input first has them. */
  lemma FirstOccurrencesOrdered(s: seq<string>)
    ensures var u := FirstOccurrences(s);
      && (forall x :: x in u <==> x in s)
      && (forall i, j | 0 <= i < j < |u| :: u[i] != u[j])
      && (forall i, j, a, b :: 0 <= i < j < |u| && FirstAt(s, a, u[i]) && FirstAt(s, b, u[j]) ==> a < b)
  {
    FirstOccurrencesSame(s);
    var u := FirstOccurrences(s);
    forall i, j, a, b | 0 <= i < j < |u| && FirstAt(s, a, u[i]) && FirstAt(s, b, u[j])
      ensures a < b
    {
      OrderedByFirst(s, i, j, a, b);
    }
  }

  lemma NoIdentities(entries: seq<Option<Entry>>)
    requires entries == []
    ensures AllIdentified(entries) && FirstOccurrences(Identities(entries)) == []
  {
  }

  /** One more entry either has an identity, which counts if it is new, or spoils them all. */
  lemma NextIdentity(entries: seq<Option<Entry>>, i: nat)
    requires i < |entries| && AllIdentified(entries[..i])
    ensures IdentityOf(entries[i]).None? ==> !AllIdentified(entries)
    ensures IdentityOf(entries[i]).Some? ==>
      && AllIdentified(entries[..i + 1])
      && var before, id := FirstOccurrences(Identities(entries[..i])), IdentityOf(entries[i]).value;
         FirstOccurrences(Identities(entries[..i + 1])) == if id in before then before else before + [id]
  {
    if IdentityOf(entries[i]).Some? {
      assert forall j | 0 <= j < i + 1 :: entries[..i + 1][j] == if j < i then entries[..i][j] else entries[i];
      var next := Identities(entries[..i + 1]);
      assert next[..|next| - 1] == Identities(entries[..i]);
    }
  }

  /** One login attempt with the calls it makes, in order. */
  class Login {
    const bindDN: string
    const bindPassword: string
    const directory: Directory
    var calls: seq<Call>

    constructor (bindDN: string, bindPassword: string, directory: Directory)
      ensures this.bindDN == bindDN && this.bindPassword == bindPassword && this.directory == directory
      ensures calls == []
    {
      this.bindDN, this.bindPassword, this.directory, calls := bindDN, bindPassword, directory, [];
    }

    predicate TimedOut()
      reads this
    {
      |calls| > directory.deadline
    }

    method VerifyPassword(dn: string, password: string) returns (err: Option<Error>)
      modifies this
      ensures directory.reconnects ==> calls == old(calls) + [Open(2), BindAs(2, dn, password), Close(2)]
      ensures !directory.reconnects ==> calls == old(calls) && err == Some(DirectoryUnavailable)
      ensures err.None? <==> directory.reconnects && directory.userBinds.Bound? && |old(calls)| + 2 <= directory.deadline
      ensures err == Some(BadCredentials)
        <==> directory.reconnects && directory.userBinds.InvalidCredentials? && |old(calls)| + 2 <= directory.deadline
    {
      if !directory.reconnects {
        return Some(DirectoryUnavailable);
      }
      calls := calls + [Open(2)];
      calls := calls + [BindAs(2, dn, password)];
      if TimedOut() {
        err := Some(DirectoryUnavailable);
      } else if directory.userBinds.InvalidCredentials? {
        err := Some(BadCredentials);
      } else if directory.userBinds.BindFailed? {
        err := Some(DirectoryUnavailable);
      } else {
        err := None;
      }
      calls := calls + [Close(2)];
    }

    method Groups(dn: string) returns (r: Result<seq<string>, Error>)
      modifies this
      ensures calls == old(calls) + [SearchGroups(1, dn)]
      ensures r == if Complete(directory.groups) && |calls| <= directory.deadline && AllIdentified(directory.groups.value.entries)
                   then Ok(FirstOccurrences(Identities(directory.groups.value.entries)))
                   else Err(DirectoryUnavailable)
    {
      hide IdentityOf, FirstOccurrences;
      calls := calls + [SearchGroups(1, dn)];
      if TimedOut() || !Complete(directory.groups) {
        return Err(DirectoryUnavailable);
      }
      var entries := directory.groups.value.entries;
      var groups: seq<string> := [];
      var seen: set<string> := {};
      NoIdentities(entries[..0]);
      for i := 0 to |entries|
        invariant calls == old(calls) + [SearchGroups(1, dn)]
        invariant AllIdentified(entries[..i])
        invariant groups == FirstOccurrences(Identities(entries[..i]))
        invariant forall x :: x in seen <==> x in groups
      {
        NextIdentity(entries, i);
        var group := IdentityOf(entries[i]);
        if group.None? {
          return Err(DirectoryUnavailable);
        }
        if group.value !in seen {
          groups := groups + [group.value];
          seen := seen + {group.value};
        }
      }
      assert entries[..|entries|] == entries;
      return Ok(groups);
    }

    method Verify(username: string, password: string) returns (r: Result<(string, seq<string>), Error>)
      requires calls == []
      modifies this
      ensures Bracketed(calls, 1) && Bracketed(calls, 2)
      ensures r.Ok? <==> Succeeds(directory, username, password)
      ensures r.Ok? ==>
        && var user := directory.users.value.entries[0];
        && r.value == (IdentityOf(user).value, FirstOccurrences(Identities(directory.groups.value.entries)))
        && calls == [Open(1), BindAs(1, bindDN, bindPassword), SearchUser(1, username),
                     Open(2), BindAs(2, user.value.dn, password), Close(2), SearchGroups(1, user.value.dn), Close(1)]
      ensures r == Err(BadCredentials) <==> Rejects(directory, username, password)
    {
      if username == "" || password == "" {
        return Err(BadCredentials);
      }
      if !directory.connects {
        return Err(DirectoryUnavailable);
      }
      calls := calls + [Open(1)];
      r := Search(username, password);
      BracketedLonger(calls, 2, Close(1));
      calls := calls + [Close(1)];
      assert BracketedAt(calls, 1, 0, |calls| - 1);
    }

    /** Everything Verify does while its search connection is open. */
    method Search(username: string, password: string) returns (r: Result<(string, seq<string>), Error>)
      requires calls == [Open(1)]
      modifies this
      ensures old(calls) <= calls && Bracketed(calls, 2) && forall i | 0 < i < |calls| :: calls[i] != Open(1) && calls[i] != Close(1)
      ensures r.Ok? <==> SearchSucceeds(directory)
      ensures r.Ok? ==>
        && var user := directory.users.value.entries[0];
        && r.value == (IdentityOf(user).value, FirstOccurrences(Identities(directory.groups.value.entries)))
        && calls == [Open(1), BindAs(1, bindDN, bindPassword), SearchUser(1, username),
                     Open(2), BindAs(2, user.value.dn, password), Close(2), SearchGroups(1, user.value.dn)]
      ensures r == Err(BadCredentials) <==> SearchRejects(directory)
    {
      calls := calls + [BindAs(1, bindDN, bindPassword)];
      if !directory.searchBinds || TimedOut() {
        return Err(DirectoryUnavailable);
      }
      calls := calls + [SearchUser(1, username)];
      if TimedOut() || !Complete(directory.users) {
        return Err(DirectoryUnavailable);
      }
      if |directory.users.value.entries| != 1 {
        return Err(BadCredentials);
      }
      var user := directory.users.value.entries[0];
      var canonical := IdentityOf(user);
      if canonical.None? {
        return Err(DirectoryUnavailable);
      }
      if !user.value.parses {
        return Err(DirectoryUnavailable);
      }
      var err := VerifyPassword(user.value.dn, password);
      assert directory.reconnects ==> BracketedAt(calls, 2, 3, 5);
      if err.Some? {
        return Err(err.value);
      }
      BracketedLonger(calls, 2, SearchGroups(1, user.value.dn));
      var groups := Groups(user.value.dn);
      if groups.Err? {
        return Err(groups.error);
      }
      return Ok((canonical.value, groups.value));
    }
  }

  ghost predicate BracketedAt(calls: seq<Call>, conn: nat, a: int, b: int) {
    && 0 <= a < b < |calls|
    && calls[a] == Open(conn) && calls[b] == Close(conn)
    && forall i | 0 <= i < |calls| && calls[i].conn == conn && i != a && i != b :: a < i < b && !calls[i].Open? && !calls[i].Close?
  }

  /** A connection is either never used, or opened once, used in between, and closed once. */
  ghost predicate Bracketed(calls: seq<Call>, conn: nat) {
    (forall i | 0 <= i < |calls| :: calls[i].conn != conn) || exists a, b :: BracketedAt(calls, conn, a, b)
  }

  lemma BracketedLonger(calls: seq<Call>, conn: nat, next: Call)
    requires Bracketed(calls, conn) && next.conn != conn
    ensures Bracketed(calls + [next], conn)
  {
    if a, b :| BracketedAt(calls, conn, a, b) {
      assert BracketedAt(calls + [next], conn, a, b);
    }
  }

  /** Up to a single complete user entry. */
  predicate FindsUser(d: Directory) {
    && d.searchBinds && 3 <= d.deadline
    && Complete(d.users) && |d.users.value.entries| == 1
    && IdentityOf(d.users.value.entries[0]).Some? && d.users.value.entries[0].value.parses
  }

  predicate SearchSucceeds(d: Directory) {
    && FindsUser(d) && d.reconnects && d.userBinds.Bound? && 7 <= d.deadline
    && Complete(d.groups) && AllIdentified(d.groups.value.entries)
  }

  predicate SearchRejects(d: Directory) {
    || (d.searchBinds && 3 <= d.deadline && Complete(d.users) && |d.users.value.entries| != 1)
    || (FindsUser(d) && d.reconnects && d.userBinds.InvalidCredentials? && 5 <= d.deadline)
  }

  predicate Succeeds(d: Directory, username: string, password: string) {
    username != "" && password != "" && d.connects && SearchSucceeds(d)
  }

  /** The password, or the choice of user, is at fault; every other failure is the directory's. */
  predicate Rejects(d: Directory, username: string, password: string) {
    username == "" || password == "" || (d.connects && SearchRejects(d))
  }

  /** Every identity a login resolves passes the check that issuing a token makes. */
  lemma ResolvedIdentitiesAreValid(d: Directory, username: string, password: string)
    requires Succeeds(d, username, password)
    ensures LdapTokens.ValidIdentities(IdentityOf(d.users.value.entries[0]).value, FirstOccurrences(Identities(d.groups.value.entries)))
  {
    var ids := Identities(d.groups.value.entries);
    FirstOccurrencesOrdered(ids);
    var groups := FirstOccurrences(ids);
    forall i | 0 <= i < |groups|
      ensures ValidIdentity(groups[i])
    {
      assert groups[i] in ids;
    }
  }

  /** Password login: the directory decides, then a token is issued. */
  method PasswordLogin(login: Login, t: LdapTokens.Tokens, username: string, password: string, now: int, encodedLength: nat)
    returns (r: Option<LdapTokens.Raw>, credential: LdapTokens.Credential)
    requires login.calls == []
    requires LdapTokens.Usable(t) && 0 <= now
    modifies login
    ensures r.Some? <==> Succeeds(login.directory, username, password) && encodedLength <= LdapTokens.MAX_TOKEN_BYTES
    // Until it expires, every replica that trusts the key takes the token for the identity the directory resolved.
    ensures r.Some? ==>
      forall v: LdapTokens.Tokens, later: int ::
        v.issuer == t.issuer && v.audience == t.audience && t.keyID in v.keys && v.keys[t.keyID] == LdapTokens.PublicOf(t.private)
        && now <= later < (now / LdapTokens.SECOND + t.ttl) * LdapTokens.SECOND ==>
          LdapTokens.Verdict(v, r.value, later) == Ok(credential)
    ensures r.Some? ==>
      credential.user == IdentityOf(login.directory.users.value.entries[0]).value
      && credential.groups == FirstOccurrences(Identities(login.directory.groups.value.entries))
  {
    r, credential := None, LdapTokens.Credential("", []);
    var identity := login.Verify(username, password);
    if identity.Ok? {
      ResolvedIdentitiesAreValid(login.directory, username, password);
      credential := LdapTokens.Credential(identity.value.0, identity.value.1);
      var issued := LdapTokens.Issue(t, credential.user, credential.groups, now, encodedLength);
      if issued.Ok? {
        r := Some(issued.value.accessToken);
        forall v: LdapTokens.Tokens, later: int |
          v.issuer == t.issuer && v.audience == t.audience && t.keyID in v.keys && v.keys[t.keyID] == LdapTokens.PublicOf(t.private)
          && now <= later < (now / LdapTokens.SECOND + t.ttl) * LdapTokens.SECOND
          ensures LdapTokens.Verdict(v, r.value, later) == Ok(credential)
        {
          LdapTokens.VerifyInvertsIssue(t, v, credential.user, credential.groups, now, later);
        }
      }
    }
  }
}
