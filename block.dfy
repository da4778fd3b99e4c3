/** The editor side of the block: the two pickers it builds from the REST
    responses and the attribute updates its callbacks make. Each `.done`
    callback is a step over the response it receives. */
module Block {
  import opened Records
  import opened Text
  import opened Formats
  import opened Sorting
  import opened UsersApi

  /** An entry of a `SelectControl`. */
  datatype SelectOption = SelectOption(value: string, caption: string)

  const UserPlaceholder := SelectOption("", "Select a user")
  const SectionPlaceholder := SelectOption("", "please select")

  // ---- The user picker ----

  /** `{value: email, label: lastname + ', ' + firstname}`. */
  function UserOption(u: User): SelectOption {
    SelectOption(u.email, u.lastname + ", " + u.firstname)
  }

  function UserOptions(data: seq<User>): (r: seq<SelectOption>)
    ensures |r| == |data| && forall i :: 0 <= i < |data| ==> r[i] == UserOption(data[i])
  {
    seq(|data|, i requires 0 <= i < |data| => UserOption(data[i]))
  }

  /** The comparison the sort callback makes: `a.label > b.label` and `a.label < b.label`. */
  function LabelKey(o: SelectOption): seq<int> {
    Utf16(o.caption)
  }

  /** The picker: the placeholder, then the users' options in a stable sort by label. */
  function UserOptionList(data: seq<User>): seq<SelectOption> {
    [UserPlaceholder] + InsertionSort(UserOptions(data), LabelKey)
  }

  /** One option per user after the placeholder, ordered by label; the options are exactly
      the users' options, and users with the same label keep their response order. */
  lemma UserOptionListShape(data: seq<User>)
    ensures var r := UserOptionList(data);
            && |r| == |data| + 1 && r[0] == UserPlaceholder
            && SortedBy(r[1..], LabelKey)
            && multiset(r[1..]) == multiset(UserOptions(data))
            && forall k :: WithKey(r[1..], k, LabelKey) == WithKey(UserOptions(data), k, LabelKey)
  {
    var r := UserOptionList(data);
    InsertionSortSorted(UserOptions(data), LabelKey);
    InsertionSortPermutation(UserOptions(data), LabelKey);
    forall k ensures WithKey(r[1..], k, LabelKey) == WithKey(UserOptions(data), k, LabelKey) {
      assert r[1..] == InsertionSort(UserOptions(data), LabelKey);
      InsertionSortStable(UserOptions(data), k, LabelKey);
    }
  }

  /** The `.done` callback of the users request: one option per user pushed in order,
      the array sorted in place, the placeholder put in front. */
  method BuildUserOptions(data: seq<User>) returns (userOpts: seq<SelectOption>)
    ensures userOpts == UserOptionList(data)
  {
    var opts: seq<SelectOption> := [];
    var i := 0;
    while i < |data|
      invariant 0 <= i <= |data|
      invariant |opts| == i && forall k :: 0 <= k < i ==> opts[k] == UserOption(data[k])
    {
      opts := opts + [UserOption(data[i])];
      i := i + 1;
    }
    assert opts == UserOptions(data);
    var sorted := new SelectOption[|opts|](k requires 0 <= k < |opts| => opts[k]);
    assert sorted[..] == opts;
    SortInPlace(sorted, LabelKey);
    userOpts := [UserPlaceholder] + sorted[..];
  }

  // ---- The section picker ----

  /** A section the picker never offers: a section named for testing or marked do-not-use, or one on the skip list. */
  predicate Skipped(name: string, sectionsToSkip: seq<string>) {
    Contains(name, "DNU") || Contains(name, "TEST") || name in sectionsToSkip
  }

  /** The section names of the response, in first-occurrence order, without skipped
      names and without repeats. */
  function CollectSections(data: seq<SectionData>, sectionsToSkip: seq<string>): (r: seq<string>)
    ensures Distinct(r)
    ensures forall i :: 0 <= i < |r| ==>
              !Skipped(r[i], sectionsToSkip) && exists k :: 0 <= k < |data| && data[k].name == r[i]
    ensures forall k :: 0 <= k < |data| && !Skipped(data[k].name, sectionsToSkip) ==> data[k].name in r
  {
    if data == [] then []
    else
      var n := |data| - 1;
      var prev := CollectSections(data[..n], sectionsToSkip);
      var name := data[n].name;
      assert forall k :: 0 <= k < n ==> data[..n][k] == data[k];
      if !Skipped(name, sectionsToSkip) && name !in prev then prev + [name] else prev
  }

  /** The `forEach` over the userdata response that pushes each new, unskipped name. */
  method CollectSectionNames(data: seq<SectionData>, sectionsToSkip: seq<string>)
    returns (newSections: seq<string>)
    ensures newSections == CollectSections(data, sectionsToSkip)
  {
    newSections := [];
    var i := 0;
    while i < |data|
      invariant 0 <= i <= |data|
      invariant newSections == CollectSections(data[..i], sectionsToSkip)
    {
      assert data[..i + 1][..i] == data[..i];
      var sectionName := data[i].name;
      if !Contains(sectionName, "DNU") && !Contains(sectionName, "TEST") && sectionName !in sectionsToSkip {
        if sectionName !in newSections {
          newSections := newSections + [sectionName];
        }
      }
      i := i + 1;
    }
    assert data[..i] == data;
  }

  /** `{value: name, label: clean(name)}`; the editor's `clean` is `cleanTextField`. */
  function SectionOption(name: string, clean: string -> string): SelectOption {
    SelectOption(name, clean(name))
  }

  function SectionOptions(names: seq<string>, clean: string -> string): (r: seq<SelectOption>)
    ensures |r| == |names| && forall i :: 0 <= i < |names| ==> r[i] == SectionOption(names[i], clean)
  {
    seq(|names|, i requires 0 <= i < |names| => SectionOption(names[i], clean))
  }

  /** The picker: the placeholder, then the collected names sorted by code units, each
      labelled with its cleaned form. */
  function SectionOptionList(data: seq<SectionData>, sectionsToSkip: seq<string>): seq<SelectOption> {
    [SectionPlaceholder] + SectionOptions(InsertionSort(CollectSections(data, sectionsToSkip), Utf16), CleanString)
  }

  function Values(opts: seq<SelectOption>): (r: seq<string>)
    ensures |r| == |opts| && forall i :: 0 <= i < |opts| ==> r[i] == opts[i].value
  {
    seq(|opts|, i requires 0 <= i < |opts| => opts[i].value)
  }

  predicate Distinct(s: seq<string>) {
    forall i, j :: 0 <= i < j < |s| ==> s[i] != s[j]
  }

  lemma {:induction false} DistinctCounts(s: seq<string>)
    requires Distinct(s)
    ensures forall x :: multiset(s)[x] <= 1
  {
    if s != [] {
      var init := s[..|s| - 1];
      DistinctCounts(init);
      assert s == init + [s[|s| - 1]];
      assert s[|s| - 1] !in init;
    }
  }

  lemma RepeatCounts(s: seq<string>, i: int, j: int)
    requires 0 <= i < j < |s| && s[i] == s[j]
    ensures multiset(s)[s[i]] >= 2
  {
    assert s == s[..j] + [s[j]] + s[j + 1..];
    assert s[i] in s[..j];
  }

  /** A permutation of a list without repeats has no repeats either. */
  lemma PermutationDistinct(s: seq<string>, t: seq<string>)
    requires multiset(s) == multiset(t) && Distinct(t)
    ensures Distinct(s)
  {
    DistinctCounts(t);
    forall i, j | 0 <= i < j < |s| ensures s[i] != s[j] {
      if s[i] == s[j] {
        RepeatCounts(s, i, j);
      }
    }
  }

  lemma ValuesOfSectionOptions(names: seq<string>, clean: string -> string)
    ensures Values(SectionOptions(names, clean)) == names
  {
  }

  /** Options built from distinct names: the placeholder, then each name once, in
      ascending code-unit order, valued with the name and labelled with `clean` of it. */
  lemma SortedOptionsShape(names: seq<string>, clean: string -> string)
    requires Distinct(names)
    ensures var r := [SectionPlaceholder] + SectionOptions(InsertionSort(names, Utf16), clean);
            && |r| == |names| + 1 && r[0] == SectionPlaceholder
            && multiset(Values(r[1..])) == multiset(names)
            && SortedBy(Values(r[1..]), Utf16)
            && Distinct(Values(r[1..]))
            && (forall i :: 1 <= i < |r| ==> r[i].caption == clean(r[i].value))
  {
    var sorted := InsertionSort(names, Utf16);
    var r := [SectionPlaceholder] + SectionOptions(sorted, clean);
    InsertionSortSorted(names, Utf16);
    InsertionSortPermutation(names, Utf16);
    assert r[1..] == SectionOptions(sorted, clean);
    ValuesOfSectionOptions(sorted, clean);
    PermutationDistinct(sorted, names);
  }

  /** The section picker for a userdata response: the placeholder, then each collected
      name once, ascending, with its cleaned label. */
  lemma SectionOptionListShape(data: seq<SectionData>, sectionsToSkip: seq<string>)
    ensures var r := SectionOptionList(data, sectionsToSkip);
            var names := CollectSections(data, sectionsToSkip);
            && |r| == |names| + 1 && r[0] == SectionPlaceholder
            && multiset(Values(r[1..])) == multiset(names)
            && SortedBy(Values(r[1..]), Utf16)
            && Distinct(Values(r[1..]))
            && (forall i :: 1 <= i < |r| ==> r[i].caption == CleanString(r[i].value))
  {
    SortedOptionsShape(CollectSections(data, sectionsToSkip), CleanString);
  }

  /** The section options the userdata callback builds: collect, sort in place, then push
      the placeholder and one option per name. */
  method BuildSectionOptions(data: seq<SectionData>, sectionsToSkip: seq<string>)
    returns (sectionOptions: seq<SelectOption>)
    ensures sectionOptions == SectionOptionList(data, sectionsToSkip)
  {
    var newSections := CollectSectionNames(data, sectionsToSkip);
    var names := new string[|newSections|](k requires 0 <= k < |newSections| => newSections[k]);
    assert names[..] == newSections;
    SortInPlace(names, Utf16);
    sectionOptions := PushSectionOptions(names[..], CleanString);
  }

  /** The placeholder pushed first, then one option per sorted name. */
  method PushSectionOptions(names: seq<string>, clean: string -> string) returns (sectionOptions: seq<SelectOption>)
    ensures sectionOptions == [SectionPlaceholder] + SectionOptions(names, clean)
  {
    sectionOptions := [SectionPlaceholder];
    var i := 0;
    while i < |names|
      invariant 0 <= i <= |names|
      invariant |sectionOptions| == i + 1 && sectionOptions[0] == SectionPlaceholder
      invariant forall k :: 0 <= k < i ==> sectionOptions[k + 1] == SectionOption(names[k], clean)
    {
      sectionOptions := sectionOptions + [SectionOption(names[i], clean)];
      i := i + 1;
    }
    assert sectionOptions == [SectionPlaceholder] + sectionOptions[1..];
    assert sectionOptions[1..] == SectionOptions(names, clean);
  }

  // ---- Selection rules ----

  /** `allUsers.filter(obj => obj.email === newEmail)`. */
  function MatchingUsers(users: seq<User>, email: string): (r: seq<User>)
    ensures forall k :: 0 <= k < |r| ==> r[k].email == email
    ensures forall k :: 0 <= k < |users| && users[k].email == email ==> users[k] in r
  {
    if users == [] then []
    else
      var n := |users| - 1;
      var r := MatchingUsers(users[..n], email);
      assert forall k :: 0 <= k < n ==> users[k] == users[..n][k];
      r + (if users[n].email == email then [users[n]] else [])
  }

  /** The filter is the allow-list filter with the one email as the list, so it keeps
      the users with the email at increasing positions, each as often as it occurs. */
  lemma {:induction false} MatchingUsersIsFilter(users: seq<User>, email: string)
    ensures MatchingUsers(users, email) == KeepAdmins(users, [email])
    ensures PicksOut(KeptIndices(users, [email]), MatchingUsers(users, email), users)
    ensures forall u :: multiset(MatchingUsers(users, email))[u] ==
                        if u.email == email then multiset(users)[u] else 0
  {
    if users != [] {
      MatchingUsersIsFilter(users[..|users| - 1], email);
    }
    KeepAdminsSubsequence(users, [email]);
    KeepAdminsCounts(users, [email]);
  }

  /** `i` is the one position whose user has this email. */
  predicate UniqueIndex(users: seq<User>, email: string, i: int) {
    0 <= i < |users| && users[i].email == email &&
    forall j :: 0 <= j < |users| && users[j].email == email ==> j == i
  }

  lemma {:induction false} NoMatch(users: seq<User>, email: string)
    ensures MatchingUsers(users, email) == [] <==> forall j :: 0 <= j < |users| ==> users[j].email != email
  {
    if users != [] {
      var n := |users| - 1;
      NoMatch(users[..n], email);
      assert forall j :: 0 <= j < n ==> users[..n][j] == users[j];
    }
  }

  /** The filter yields a single user exactly when one position holds the email,
      and then that user is the one at that position. */
  lemma {:induction false} SingleMatch(users: seq<User>, email: string)
    ensures |MatchingUsers(users, email)| == 1 <==> exists i :: UniqueIndex(users, email, i)
    ensures forall i :: UniqueIndex(users, email, i) ==> MatchingUsers(users, email) == [users[i]]
  {
    if users != [] {
      var n := |users| - 1;
      var init := users[..n];
      SingleMatch(init, email);
      NoMatch(init, email);
      assert forall j :: 0 <= j < n ==> init[j] == users[j];
      if users[n].email == email {
        if |MatchingUsers(users, email)| == 1 {
          assert UniqueIndex(users, email, n);
        }
        forall i | UniqueIndex(users, email, i) ensures MatchingUsers(users, email) == [users[i]] {
          assert i == n;
        }
      } else {
        if |MatchingUsers(users, email)| == 1 {
          var i :| UniqueIndex(init, email, i);
          assert UniqueIndex(users, email, i);
        }
        forall i | UniqueIndex(users, email, i) ensures MatchingUsers(users, email) == [users[i]] {
          assert UniqueIndex(init, email, i);
        }
      }
    }
  }

  /** `userdata.filter(obj => obj.section.name === newSection)[0]`: the first entry for the
      section, or undefined. */
  function FirstSection(data: seq<SectionData>, name: string): (r: Option<SectionData>)
    ensures r.None? <==> forall k :: 0 <= k < |data| ==> data[k].name != name
    ensures r.Some? ==> exists k :: 0 <= k < |data| && data[k] == r.value && data[k].name == name &&
                                    forall j :: 0 <= j < k ==> data[j].name != name
  {
    if data == [] then None
    else if data[0].name == name then Some(data[0])
    else
      var r := FirstSection(data[1..], name);
      assert forall k :: 1 <= k < |data| ==> data[k] == data[1..][k - 1];
      assert r.Some? ==> exists k :: 0 <= k < |data| && data[k] == r.value && data[k].name == name &&
                                     forall j :: 0 <= j < k ==> data[j].name != name by {
        if r.Some? {
          var k :| 0 <= k < |data[1..]| && data[1..][k] == r.value && data[1..][k].name == name &&
                   forall j :: 0 <= j < k ==> data[1..][j].name != name;
          assert data[k + 1] == r.value;
          forall j | 0 <= j < k + 1 ensures data[j].name != name {
            if j > 0 { assert data[j] == data[1..][j - 1]; }
          }
        }
      }
      r
  }

  // ---- The userdata request ----

  const RestPrefix := "/wp-json"

  /** The path the editor requests for a user's data. */
  function UserDataTarget(userid: string): string {
    "/wp-json/wp-f180/v1/userdata/" + userid
  }

  /** The requested path is the REST prefix followed by the handler's route, and the
      route accepts it, handing the identifier back, exactly when the identifier is valid. */
  lemma UserDataTargetRoutes(userid: string)
    ensures UserDataTarget(userid) == RestPrefix + UserDataRoute + userid
    ensures MatchUserDataRoute(UserDataTarget(userid)[|RestPrefix|..]) ==
            if ValidUserId(userid) then Some(userid) else None
  {
    assert UserDataTarget(userid)[|RestPrefix|..] == UserDataRoute + userid;
    UserDataRouteRoundTrip(userid);
  }

  // ---- The block's attributes ----

  /** The `user` attribute: never set, a chosen user, or cleared to the empty string. */
  datatype UserAttribute = NoUser | Picked(u: User) | Cleared

  /** The attribute bag of one block, with the defaults of its registration. */
  class BlockAttributes {
    var email: Option<string>
    var userid: Option<string>
    var section: Option<string>
    var user: UserAttribute
    var sections: seq<SelectOption>
    var userOptions: seq<SelectOption>
    var userdata: seq<SectionData>
    var sectiondata: Option<SectionData>
    var hidetitle: bool
    var userError: bool
    var foundNoUsers: bool
    var outputContainer: string
    var allUsers: seq<User>

    /** What the callbacks keep true: each picker starts with its placeholder, and the
        `user`, `email` and `userid` attributes agree. */
    predicate Valid()
      reads this
    {
      && (userOptions == [] || userOptions[0] == UserPlaceholder)
      && (sections == [] || sections[0] == SectionPlaceholder)
      && (user.Picked? ==> email == Some(user.u.email) && userid == Some(user.u.userid))
      && (user.Cleared? ==> email == Some("") && userid == Some("") && userError)
    }

    constructor ()
      ensures Valid()
      ensures email == None && userid == None && section == None && user == NoUser
      ensures sections == [] && userOptions == [] && userdata == [] && sectiondata == None
      ensures !hidetitle && !userError && !foundNoUsers && outputContainer == "ul" && allUsers == []
    {
      email := None;
      userid := None;
      section := None;
      user := NoUser;
      sections := [];
      userOptions := [];
      userdata := [];
      sectiondata := None;
      hidetitle := false;
      userError := false;
      foundNoUsers := false;
      outputContainer := "ul";
      allUsers := [];
    }

    /** The `.done` callback of the users request. */
    method OnUsersFetched(data: seq<User>)
      requires Valid()
      modifies this
      ensures Valid()
      ensures foundNoUsers == (old(foundNoUsers) || |data| == 0)
      ensures allUsers == data
      ensures userOptions == UserOptionList(data)
      ensures email == old(email) && userid == old(userid) && section == old(section) && user == old(user)
      ensures sections == old(sections) && userdata == old(userdata) && sectiondata == old(sectiondata)
      ensures hidetitle == old(hidetitle) && userError == old(userError) && outputContainer == old(outputContainer)
    {
      var numUsers := |data|;
      if numUsers == 0 {
        foundNoUsers := true;
      }
      allUsers := data;
      var userOpts := BuildUserOptions(data);
      userOptions := userOpts;
    }

    /** `updateEmailAddress`: clears the sections, then accepts the email only when exactly
        one known user has it; the result is the path to request that user's data. */
    method UpdateEmailAddress(newEmail: string) returns (target: Option<string>)
      requires Valid()
      modifies this
      ensures Valid()
      ensures sections == []
      ensures var matches := MatchingUsers(old(allUsers), newEmail);
              if |matches| == 1 then
                && email == Some(newEmail) && userid == Some(matches[0].userid) && user == Picked(matches[0])
                && userError == old(userError) && target == Some(UserDataTarget(matches[0].userid))
              else
                email == Some("") && userid == Some("") && user == Cleared && userError && target == None
      ensures section == old(section) && userOptions == old(userOptions) && userdata == old(userdata)
      ensures sectiondata == old(sectiondata) && hidetitle == old(hidetitle) && foundNoUsers == old(foundNoUsers)
      ensures outputContainer == old(outputContainer) && allUsers == old(allUsers)
    {
      sections := [];
      var matches := MatchingUsers(allUsers, newEmail);
      if |matches| == 1 {
        var u := matches[0];
        email := Some(newEmail);
        userid := Some(u.userid);
        user := Picked(u);
        target := Some(UserDataTarget(u.userid));
      } else {
        email := Some("");
        userid := Some("");
        user := Cleared;
        userError := true;
        target := None;
      }
    }

    /** The `.done` callback of the userdata request. */
    method OnUserDataFetched(data: seq<SectionData>, sectionsToSkip: seq<string>)
      requires Valid()
      modifies this
      ensures Valid()
      ensures userdata == data
      ensures sections == SectionOptionList(data, sectionsToSkip)
      ensures email == old(email) && userid == old(userid) && section == old(section) && user == old(user)
      ensures userOptions == old(userOptions) && sectiondata == old(sectiondata) && hidetitle == old(hidetitle)
      ensures userError == old(userError) && foundNoUsers == old(foundNoUsers)
      ensures outputContainer == old(outputContainer) && allUsers == old(allUsers)
    {
      userdata := data;
      var sectionOptions := BuildSectionOptions(data, sectionsToSkip);
      sections := sectionOptions;
    }

    /** `updateSection`: an empty choice changes nothing; otherwise the section and the
        first data entry for it (or none) are stored. */
    method UpdateSection(newSection: string)
      requires Valid()
      modifies this
      ensures Valid()
      ensures newSection == "" ==> section == old(section) && sectiondata == old(sectiondata)
      ensures newSection != "" ==> section == Some(newSection) && sectiondata == FirstSection(userdata, newSection)
      ensures email == old(email) && userid == old(userid) && user == old(user) && sections == old(sections)
      ensures userOptions == old(userOptions) && userdata == old(userdata) && hidetitle == old(hidetitle)
      ensures userError == old(userError) && foundNoUsers == old(foundNoUsers)
      ensures outputContainer == old(outputContainer) && allUsers == old(allUsers)
    {
      if newSection != "" {
        section := Some(newSection);
        var found := FirstSection(userdata, newSection);
        sectiondata := found;
      }
    }
  }
}
