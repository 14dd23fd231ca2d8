/**
 * The contributor resolver: `getUserDetails`, `getEmailFromCommits` and
 * `getFirstContributorDetails`, with every REST call replaced by the
 * response the API gives to it.
 */
module Resolver {
  import opened Wrappers
  import opened Http

  /** One element of the contributor list: `login` and `contributions`. */
  datatype Contributor = Contributor(login: string, contributions: int)

  /** The user profile fields the script reads; both may be `null`. */
  datatype Profile = Profile(name: Option<string>, company: Option<string>)

  /** One element of the commit list, reduced to `commit.author.email`. */
  datatype Commit = Commit(authorEmail: string)

  /** The record assembled for one dependent; a `None` field is a `null`. */
  datatype ContributorRecord = ContributorRecord(
    username: string,
    fullName: Option<string>,
    email: Option<string>,
    company: Option<string>,
    contributions: int,
    repository: string)

  /**
   * The REST API as the script queries it: the response to the contributor
   * list of `owner/repo`, to the profile of a user, and to the commits of
   * `owner/repo` authored by a user. Being functions, they give the same
   * response every time the same request is made.
   */
  datatype Api = Api(
    contributors: (string, string) -> Fetch<seq<Contributor>>,
    user: string -> Fetch<Profile>,
    commits: (string, string, string) -> Fetch<seq<Commit>>)

  /** `getUserDetails`: the profile on a 200 response, `null` on any other status or error. */
  function UserDetails(response: Fetch<Profile>): (profile: Option<Profile>)
    ensures profile.Some? <==> response.Received? && response.status == OK
    ensures profile.Some? ==> profile.value == response.data
  {
    match response
    case Received(status, data) => if status == OK then Some(data) else None
    case Rejected(_) => None
  }

  /**
   * `getEmailFromCommits`: the author email of the first commit listed, or
   * `null` when the response is not 200, the list is empty, or the request failed.
   */
  function EmailFromCommits(response: Fetch<seq<Commit>>): (email: Option<string>)
    ensures email.Some? <==> response.Received? && response.status == OK && |response.data| > 0
    ensures email.Some? ==> email.value == response.data[0].authorEmail
  {
    match response
    case Received(status, commits) =>
      if status == OK && |commits| > 0 then Some(commits[0].authorEmail) else None
    case Rejected(_) => None
  }

  /** The contributor list answered 200 with at least one contributor. */
  predicate HasTopContributor(response: Fetch<seq<Contributor>>)
  {
    response.Received? && response.status == OK && |response.data| > 0
  }

  /**
   * `getFirstContributorDetails`. The profile and the commits are looked up
   * for the first contributor listed. A `null` profile makes the read of
   * `userDetails.name` throw inside the `try`, and its `catch` returns `null`
   * for the whole record.
   */
  function FirstContributorDetails(api: Api, owner: string, repo: string): (r: Option<ContributorRecord>)
    ensures r.Some? <==>
      HasTopContributor(api.contributors(owner, repo)) &&
      api.user(api.contributors(owner, repo).data[0].login).Received? &&
      api.user(api.contributors(owner, repo).data[0].login).status == OK
    ensures r.Some? ==>
      var top := api.contributors(owner, repo).data[0];
      && r.value.username == top.login
      && r.value.contributions == top.contributions
      && r.value.repository == owner + "/" + repo
      && r.value.fullName == api.user(top.login).data.name
      && r.value.company == api.user(top.login).data.company
      && r.value.email == EmailFromCommits(api.commits(owner, repo, top.login))
  {
    var contributors := api.contributors(owner, repo);
    if contributors.Received? && contributors.status == OK && |contributors.data| > 0 then
      var first := contributors.data[0];
      var userDetails := UserDetails(api.user(first.login));
      var email := EmailFromCommits(api.commits(owner, repo, first.login));
      match userDetails
      case None => None
      case Some(profile) =>
        Some(ContributorRecord(first.login, profile.name, email, profile.company,
                               first.contributions, owner + "/" + repo))
    else
      None
  }

  /** No record when the contributor list is not a 200 response or is empty. */
  lemma NoContributorsNoRecord(api: Api, owner: string, repo: string)
    requires !HasTopContributor(api.contributors(owner, repo))
    ensures FirstContributorDetails(api, owner, repo) == None
  {
  }

  /** A failed profile lookup aborts the whole record, whatever the other two lookups gave. */
  lemma MissingProfileDropsRecord(api: Api, owner: string, repo: string)
    requires HasTopContributor(api.contributors(owner, repo))
    requires UserDetails(api.user(api.contributors(owner, repo).data[0].login)).None?
    ensures FirstContributorDetails(api, owner, repo) == None
  {
  }

  /**
   * A failed email lookup only leaves `email` null: with the contributor
   * list and the profile found, the record exists and every other field is
   * the one the lookups gave.
   */
  lemma MissingEmailKeepsRecord(api: Api, owner: string, repo: string)
    requires HasTopContributor(api.contributors(owner, repo))
    requires UserDetails(api.user(api.contributors(owner, repo).data[0].login)).Some?
    requires EmailFromCommits(api.commits(owner, repo, api.contributors(owner, repo).data[0].login)).None?
    ensures FirstContributorDetails(api, owner, repo).Some?
    ensures FirstContributorDetails(api, owner, repo).value.email.None?
    ensures var top := api.contributors(owner, repo).data[0];
      var profile := api.user(top.login).data;
      FirstContributorDetails(api, owner, repo).value
        == ContributorRecord(top.login, profile.name, None, profile.company,
                             top.contributions, owner + "/" + repo)
  {
  }
}
