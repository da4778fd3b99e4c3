/** The plugin's two REST handlers: each signs a request path, appends the
    query after signing and sends the request upstream; the user-list
    handler then keeps only the upstream users whose email belongs to a
    local administrator. The HTTP round trip itself is an input. */
module UsersApi {
  import opened Records
  import opened Text
  import opened Signing

  // ---- Configuration ----

  const DefaultHost := "https://faculty180.interfolio.com/api.php"

  /** `INTERFOLIO_HOST`: a value defined before the file loads wins, the default fills in otherwise. */
  function Host(predefined: Option<string>): string {
    if predefined.Some? then predefined.value else DefaultHost
  }

  /** The constants the handlers read: the host as defined before the file loads
      (if it was), the key pair and the database identifier. */
  datatype Config = Config(predefinedHost: Option<string>, keys: Keys, databaseId: string)

  /** A `GET` request as the stream context describes it. */
  datatype Request = Request(verb: string, url: string, header: string)

  /** The three header lines every upstream request carries. */
  function Headers(timestamp: string, auth: string, databaseId: string): string {
    "TimeStamp: " + timestamp + "\r\n" +
    "Authorization: " + auth + "\r\n" +
    "INTF-DatabaseID: " + databaseId + "\r\n"
  }

  // ---- Timestamps ----

  predicate IsDigitChar(c: char) {
    '0' <= c <= '9'
  }

  /** The shape of `date('Y-m-d H:i:s')` for a four-digit year: `YYYY-MM-DD HH:MM:SS`. */
  predicate IsTimestamp(ts: string) {
    |ts| == 19 &&
    forall i :: 0 <= i < |ts| ==>
      if i == 4 || i == 7 then ts[i] == '-'
      else if i == 10 then ts[i] == ' '
      else if i == 13 || i == 16 then ts[i] == ':'
      else IsDigitChar(ts[i])
  }

  const UsersPath := "/users"
  const UsersQuery := "?data=detailed"
  const UserDataPath := "/userdata"
  const UserListParam := "?userlist="

  /** Neither handler signs a query: the string to sign for either path has no `?`,
      and the timestamp has no line break, so the string to sign can be split back. */
  lemma {:induction false} SignedStringHasNoQuery(ts: string, path: string)
    requires IsTimestamp(ts)
    requires path == UsersPath || path == UserDataPath
    ensures '?' !in StringToSign(ts, path)
    ensures ParseStringToSign(StringToSign(ts, path)) == Some((ts, path))
  {
    assert '?' !in ts && '\n' !in ts by {
      forall i | 0 <= i < |ts| ensures ts[i] != '?' && ts[i] != '\n' {
        assert IsDigitChar(ts[i]) || ts[i] in {'-', ' ', ':'};
      }
    }
    assert '?' !in path;
    assert '?' !in "GET\n\n\n" + ts + "\n";
    StringToSignRoundTrip(ts, path);
  }

  // ---- The administrators' emails ----

  /** An administrator account of the local site; only its email is read. */
  datatype WpUser = WpUser(userEmail: string)

  function EmailsOf(admins: seq<WpUser>): (r: seq<string>)
    ensures |r| == |admins| && forall i :: 0 <= i < |admins| ==> r[i] == admins[i].userEmail
  {
    seq(|admins|, i requires 0 <= i < |admins| => admins[i].userEmail)
  }

  /** The `foreach` that lists the administrators' emails, one per administrator, in query order. */
  method CollectAdminEmails(admins: seq<WpUser>) returns (emails: seq<string>)
    ensures |emails| == |admins|
    ensures forall i :: 0 <= i < |admins| ==> emails[i] == admins[i].userEmail
  {
    emails := [];
    var i := 0;
    while i < |admins|
      invariant 0 <= i <= |admins|
      invariant |emails| == i
      invariant forall k :: 0 <= k < i ==> emails[k] == admins[k].userEmail
    {
      emails := emails + [admins[i].userEmail];
      i := i + 1;
    }
  }

  // ---- The allow-list filter ----

  /** The upstream users whose email is on the list, in upstream order. */
  function KeepAdmins(users: seq<User>, emails: seq<string>): (r: seq<User>)
    ensures |r| <= |users|
    ensures forall k :: 0 <= k < |r| ==> r[k].email in emails
  {
    if users == [] then []
    else
      var last := users[|users| - 1];
      KeepAdmins(users[..|users| - 1], emails) + (if last.email in emails then [last] else [])
  }

  /** The positions in `users` that the filter keeps, in increasing order. */
  ghost function KeptIndices(users: seq<User>, emails: seq<string>): seq<int> {
    if users == [] then []
    else
      var n := |users| - 1;
      KeptIndices(users[..n], emails) + (if users[n].email in emails then [n] else [])
  }

  /** `r` is the subsequence of `s` picked out by the strictly increasing positions `idx`. */
  ghost predicate PicksOut(idx: seq<int>, r: seq<User>, s: seq<User>) {
    && |idx| == |r|
    && (forall k :: 0 <= k < |idx| ==> 0 <= idx[k] < |s| && r[k] == s[idx[k]])
    && (forall k, l :: 0 <= k < l < |idx| ==> idx[k] < idx[l])
  }

  /** The filter keeps order: its result is a subsequence of the upstream list. */
  lemma {:induction false} KeepAdminsSubsequence(users: seq<User>, emails: seq<string>)
    ensures PicksOut(KeptIndices(users, emails), KeepAdmins(users, emails), users)
  {
    if users != [] {
      var n := |users| - 1;
      KeepAdminsSubsequence(users[..n], emails);
      var idx := KeptIndices(users[..n], emails);
      assert forall k :: 0 <= k < |idx| ==> idx[k] < n;
    }
  }

  /** Exactly the users on the list are kept, each as often as it occurs upstream. */
  lemma {:induction false} KeepAdminsCounts(users: seq<User>, emails: seq<string>)
    ensures forall u :: multiset(KeepAdmins(users, emails))[u] ==
                        if u.email in emails then multiset(users)[u] else 0
  {
    if users != [] {
      var n := |users| - 1;
      KeepAdminsCounts(users[..n], emails);
      assert users == users[..n] + [users[n]];
    }
  }

  /** Every upstream user whose email is on the list appears in the result. */
  lemma KeepAdminsComplete(users: seq<User>, emails: seq<string>, i: int)
    requires 0 <= i < |users| && users[i].email in emails
    ensures users[i] in KeepAdmins(users, emails)
  {
    KeepAdminsCounts(users, emails);
    assert users[i] in multiset(users);
  }

  // ---- The two handlers ----

  /** `f180GetUsersList`: signs `/users`, appends `?data=detailed` afterwards, and filters
      the decoded response against the administrators. A response that does not decode
      to a list (`None`) leaves nothing to iterate over. */
  method GetUsersList(config: Config, mac: Mac, timestamp: string,
                      upstream: Option<seq<User>>, adminUsers: seq<WpUser>)
    returns (request: Request, admins: seq<User>)
    ensures request.verb == "GET"
    ensures request.url == Host(config.predefinedHost) + UsersPath + UsersQuery
    ensures config.predefinedHost.None? ==>
              request.url == DefaultHost + UsersPath + UsersQuery
    ensures request.header == Headers(timestamp, AuthHeader(mac, config.keys, timestamp, UsersPath), config.databaseId)
    ensures admins == if upstream.Some? then KeepAdmins(upstream.value, EmailsOf(adminUsers)) else []
  {
    var requestString := UsersPath;
    var authHeader := AuthHeader(mac, config.keys, timestamp, requestString);
    var header := Headers(timestamp, authHeader, config.databaseId);
    requestString := requestString + UsersQuery;
    request := Request("GET", Host(config.predefinedHost) + requestString, header);

    var adminEmails := CollectAdminEmails(adminUsers);
    assert adminEmails == EmailsOf(adminUsers);

    var users := if upstream.Some? then upstream.value else [];
    admins := FilterAdmins(users, adminEmails);
  }

  /** The `foreach` over the upstream users that keeps those whose email is in the list. */
  method FilterAdmins(users: seq<User>, emails: seq<string>) returns (admins: seq<User>)
    ensures admins == KeepAdmins(users, emails)
  {
    admins := [];
    var i := 0;
    while i < |users|
      invariant 0 <= i <= |users|
      invariant admins == KeepAdmins(users[..i], emails)
    {
      assert users[..i + 1][..i] == users[..i];
      if users[i].email in emails {
        admins := admins + [users[i]];
      }
      i := i + 1;
    }
    assert users[..i] == users;
  }

  /** `f180GetUserData`: signs `/userdata` and asks for `?userlist=<userid>`; the decoded
      response is passed back as it is. */
  method GetUserData(config: Config, mac: Mac, timestamp: string, userid: string)
    returns (request: Request)
    ensures request.verb == "GET"
    ensures request.url == Host(config.predefinedHost) + UserDataPath + UserListParam + userid
    ensures config.predefinedHost.None? ==>
              request.url == DefaultHost + UserDataPath + UserListParam + userid
    ensures request.header == Headers(timestamp, AuthHeader(mac, config.keys, timestamp, UserDataPath), config.databaseId)
  {
    var requestString := UserDataPath;
    var authHeader := AuthHeader(mac, config.keys, timestamp, requestString);
    var header := Headers(timestamp, authHeader, config.databaseId);
    requestString := requestString + UserListParam + userid;
    request := Request("GET", Host(config.predefinedHost) + requestString, header);
  }

  // ---- The userdata route ----

  /** The REST route of the userdata handler: namespace `wp-f180/v1`, then `/userdata/`. */
  const UserDataRoute := "/wp-f180/v1/userdata/"

  predicate IsAlnumAscii(c: char) {
    ('a' <= c <= 'z') || ('A' <= c <= 'Z') || ('0' <= c <= '9')
  }

  /** What `(?P<userid>[a-zA-Z0-9]+)` accepts. */
  predicate ValidUserId(id: string) {
    |id| > 0 && forall i :: 0 <= i < |id| ==> IsAlnumAscii(id[i])
  }

  /** The route pattern, anchored at both ends and matched without regard to ASCII
      case: the `userid` it captures, if the path matches. */
  function MatchUserDataRoute(path: string): (r: Option<string>)
    ensures r.Some? ==> ValidUserId(r.value) && StartsWithCI(path, UserDataRoute)
                        && path[|UserDataRoute|..] == r.value
  {
    if StartsWithCI(path, UserDataRoute) && ValidUserId(path[|UserDataRoute|..])
    then Some(path[|UserDataRoute|..])
    else None
  }

  /** The route followed by an identifier matches exactly when the identifier is valid,
      and the match gives the identifier back. */
  lemma UserDataRouteRoundTrip(id: string)
    ensures MatchUserDataRoute(UserDataRoute + id) == if ValidUserId(id) then Some(id) else None
  {
    var path := UserDataRoute + id;
    assert path[..|UserDataRoute|] == UserDataRoute;
    assert LowerAsciiString(UserDataRoute) == UserDataRoute;
    assert path[|UserDataRoute|..] == id;
  }

  /** A path whose identifier part holds any other character is refused. */
  lemma UserDataRouteRejects(id: string, i: int)
    requires 0 <= i < |id| && !IsAlnumAscii(id[i])
    ensures MatchUserDataRoute(UserDataRoute + id) == None
  {
    UserDataRouteRoundTrip(id);
  }
}
