/**
 * The driver: collect the dependents, resolve each one's first contributor
 * in order, keep the records that resolved, and export them as CSV rows
 * when there is at least one.
 */
module Driver {
  import opened Wrappers
  import opened Collector
  import opened Resolver

  /** The CSV columns, in order. */
  const FIELDS: seq<string> := ["username", "fullName", "email", "company", "contributions", "repository"]

  /** A CSV cell before formatting; `Null` is a `null` or missing property. */
  datatype Cell = Text(s: string) | Number(n: int) | Null

  /** What the run writes: the header and one row per record, or nothing. */
  datatype Export = Written(header: seq<string>, rows: seq<seq<Cell>>) | NotWritten

  /** The pieces of `s` between the `'/'`s, as JavaScript's `s.split('/')` returns them. */
  function Split(s: string): (parts: seq<string>)
    ensures |parts| >= 1
    ensures forall k :: 0 <= k < |parts| ==> '/' !in parts[k]
    ensures Join(parts) == s
  {
    if s == [] then [""]
    else
      var rest := Split(s[1..]);
      if s[0] == '/' then [""] + rest
      else [[s[0]] + rest[0]] + rest[1..]
  }

  /** The parts glued back with `'/'` between consecutive ones. */
  function Join(parts: seq<string>): string
    requires |parts| >= 1
  {
    if |parts| == 1 then parts[0] else parts[0] + "/" + Join(parts[1..])
  }

  /**
   * `const [owner, repo] = fullRepoName.split('/')`: the first two parts. A
   * missing second part is `undefined`, which the template literals of the
   * request URLs and of `repository` print as "undefined".
   */
  function OwnerRepo(fullRepoName: string): (r: (string, string))
    ensures '/' !in fullRepoName ==> r == (fullRepoName, "undefined")
    ensures |Split(fullRepoName)| >= 2 ==> r == (Split(fullRepoName)[0], Split(fullRepoName)[1])
    ensures r.0 == Split(fullRepoName)[0] && '/' !in r.0
  {
    SplitNoSeparator(fullRepoName);
    var parts := Split(fullRepoName);
    (parts[0], if |parts| >= 2 then parts[1] else "undefined")
  }

  /** A string without a `'/'` is its own single part. */
  lemma {:induction false} SplitNoSeparator(s: string)
    ensures '/' !in s ==> Split(s) == [s]
  {
    if s != [] && '/' !in s {
      SplitNoSeparator(s[1..]);
      assert [s[0]] + s[1..] == s;
    }
  }

  lemma {:induction false} SplitOneSeparator(owner: string, repo: string)
    requires '/' !in owner && '/' !in repo
    ensures Split(owner + "/" + repo) == [owner, repo]
  {
    var s := owner + "/" + repo;
    if owner == [] {
      assert s[0] == '/' && s[1..] == repo;
      SplitNoSeparator(repo);
    } else {
      assert s[0] == owner[0] && s[1..] == owner[1..] + "/" + repo;
      SplitOneSeparator(owner[1..], repo);
      assert [owner[0]] + owner[1..] == owner;
    }
  }

  /** An identifier `owner/repo` with one slash splits back into its owner and repository. */
  lemma OwnerRepoRoundTrip(owner: string, repo: string)
    requires '/' !in owner && '/' !in repo
    ensures OwnerRepo(owner + "/" + repo) == (owner, repo)
  {
    SplitOneSeparator(owner, repo);
  }

  /** The contributor record for one dependent identifier, or `None`. */
  function Resolve(api: Api, fullRepoName: string): Option<ContributorRecord>
  {
    var (owner, repo) := OwnerRepo(fullRepoName);
    FirstContributorDetails(api, owner, repo)
  }

  /** A record resolved for a dependent `owner/repo` names that dependent as its repository. */
  lemma ResolvedRecordNamesDependent(api: Api, owner: string, repo: string)
    requires '/' !in owner && '/' !in repo
    requires Resolve(api, owner + "/" + repo).Some?
    ensures Resolve(api, owner + "/" + repo).value.repository == owner + "/" + repo
  {
    OwnerRepoRoundTrip(owner, repo);
  }

  /** The outcome of resolving each dependent, in dependents order. */
  function Resolutions(api: Api, dependents: seq<string>): seq<Option<ContributorRecord>>
  {
    seq(|dependents|, i requires 0 <= i < |dependents| => Resolve(api, dependents[i]))
  }

  /** The non-null results, in order: what `if (contributor)` lets the loop push. */
  function Kept<T>(results: seq<Option<T>>): seq<T>
  {
    if results == [] then []
    else
      var last := results[|results| - 1];
      Kept(results[..|results| - 1]) + (if last.Some? then [last.value] else [])
  }

  /** The records of the dependents that resolved, in dependents order. */
  function Details(api: Api, dependents: seq<string>): seq<ContributorRecord>
  {
    Kept(Resolutions(api, dependents))
  }

  /** Keeping the results of a concatenation keeps those of the first part before those of the second. */
  lemma {:induction false} KeptAppend<T>(a: seq<Option<T>>, b: seq<Option<T>>)
    ensures Kept(a + b) == Kept(a) + Kept(b)
    decreases |b|
  {
    if b == [] {
      assert a + b == a;
    } else {
      var n := |b| - 1;
      assert (a + b)[..|a + b| - 1] == a + b[..n];
      assert (a + b)[|a + b| - 1] == b[n];
      KeptAppend(a, b[..n]);
    }
  }

  /** A value is kept exactly when it is one of the non-null results; none is invented. */
  lemma {:induction false} KeptMembers<T>(results: seq<Option<T>>, x: T)
    ensures x in Kept(results) <==> Some(x) in results
    decreases |results|
  {
    if results != [] {
      var n := |results| - 1;
      KeptMembers(results[..n], x);
      assert results == results[..n] + [results[n]];
    }
  }

  /** There are never more kept values than results. */
  lemma {:induction false} KeptBounded<T>(results: seq<Option<T>>)
    ensures |Kept(results)| <= |results|
    decreases |results|
  {
    if results != [] {
      KeptBounded(results[..|results| - 1]);
    }
  }

  /** A record is kept exactly when some dependent resolved to it. */
  lemma DetailsMembers(api: Api, dependents: seq<string>, record: ContributorRecord)
    ensures record in Details(api, dependents) <==>
      exists i :: 0 <= i < |dependents| && Resolve(api, dependents[i]) == Some(record)
  {
    var results := Resolutions(api, dependents);
    KeptMembers(results, record);
    if Some(record) in results {
      var i :| 0 <= i < |results| && results[i] == Some(record);
      assert Resolve(api, dependents[i]) == Some(record);
    }
    if exists i :: 0 <= i < |dependents| && Resolve(api, dependents[i]) == Some(record) {
      var i :| 0 <= i < |dependents| && Resolve(api, dependents[i]) == Some(record);
      assert results[i] == Some(record);
    }
  }

  /** Resolving one more dependent appends its outcome. */
  lemma ResolutionsSnoc(api: Api, dependents: seq<string>, i: nat)
    requires i < |dependents|
    ensures Resolutions(api, dependents[..i + 1])
         == Resolutions(api, dependents[..i]) + [Resolve(api, dependents[i])]
  {
  }

  /** Records keep the order of their dependents: those of earlier dependents come first. */
  lemma DetailsAppend(api: Api, a: seq<string>, b: seq<string>)
    ensures Details(api, a + b) == Details(api, a) + Details(api, b)
  {
    var ra, rb, rab := Resolutions(api, a), Resolutions(api, b), Resolutions(api, a + b);
    forall k | 0 <= k < |rab|
      ensures rab[k] == (ra + rb)[k]
    {
      if k < |a| {
        assert (a + b)[k] == a[k];
      } else {
        assert (a + b)[k] == b[k - |a|];
      }
    }
    assert rab == ra + rb;
    KeptAppend(ra, rb);
  }

  /** The property of a record that json2csv reads for a column name. */
  function Property(record: ContributorRecord, name: string): Cell
  {
    if name == "username" then Text(record.username)
    else if name == "fullName" then OptionalText(record.fullName)
    else if name == "email" then OptionalText(record.email)
    else if name == "company" then OptionalText(record.company)
    else if name == "contributions" then Number(record.contributions)
    else if name == "repository" then Text(record.repository)
    else Null
  }

  function OptionalText(s: Option<string>): Cell
  {
    if s.Some? then Text(s.value) else Null
  }

  /** One CSV row: every cell is the record's property named by the header of its column. */
  function Row(record: ContributorRecord): (cells: seq<Cell>)
    ensures |cells| == |FIELDS|
    ensures forall k :: 0 <= k < |FIELDS| ==> cells[k] == Property(record, FIELDS[k])
  {
    [Text(record.username), OptionalText(record.fullName), OptionalText(record.email),
     OptionalText(record.company), Number(record.contributions), Text(record.repository)]
  }

  /** The CSV body: one row per record, in order. */
  function Rows(records: seq<ContributorRecord>): seq<seq<Cell>>
  {
    seq(|records|, i requires 0 <= i < |records| => Row(records[i]))
  }

  /**
   * The whole run: collect the dependents from the page responses in
   * `responses`, resolve each through `api` in order, keep the non-null
   * records, and write the CSV only when at least one record was kept.
   */
  method ScrapeContributors(responses: seq<PageOutcome>, api: Api)
    returns (contributorDetails: seq<ContributorRecord>, output: Export)
    ensures contributorDetails == Details(api, Collect([], responses).dependents)
    ensures |contributorDetails| <= MAX_DEPENDENTS
    ensures output.Written? <==>
      exists i :: 0 <= i < |Collect([], responses).dependents| &&
        Resolve(api, Collect([], responses).dependents[i]).Some?
    ensures output.Written? ==>
      output.header == FIELDS && output.rows == Rows(contributorDetails)
  {
    var dependents, _ := GetDependents(responses);
    contributorDetails := [];
    ghost var results: seq<Option<ContributorRecord>> := [];
    for i := 0 to |dependents|
      invariant results == Resolutions(api, dependents[..i])
      invariant contributorDetails == Kept(results)
    {
      var (owner, repo) := OwnerRepo(dependents[i]);
      var contributor := FirstContributorDetails(api, owner, repo);
      if contributor.Some? {
        contributorDetails := contributorDetails + [contributor.value];
      }
      ResolutionsSnoc(api, dependents, i);
      assert (results + [contributor])[..i] == results;
      results := results + [contributor];
    }
    assert dependents[..|dependents|] == dependents;
    KeptBounded(results);

    if |contributorDetails| > 0 {
      output := Written(FIELDS, Rows(contributorDetails));
    } else {
      output := NotWritten;
    }
    ExportDecision(api, dependents);
  }

  /** Some record is kept exactly when some dependent resolved. */
  lemma ExportDecision(api: Api, dependents: seq<string>)
    ensures |Details(api, dependents)| > 0 <==>
      exists i :: 0 <= i < |dependents| && Resolve(api, dependents[i]).Some?
  {
    if |Details(api, dependents)| > 0 {
      DetailsMembers(api, dependents, Details(api, dependents)[0]);
    }
    if exists i :: 0 <= i < |dependents| && Resolve(api, dependents[i]).Some? {
      var i :| 0 <= i < |dependents| && Resolve(api, dependents[i]).Some?;
      DetailsMembers(api, dependents, Resolve(api, dependents[i]).value);
    }
  }
}
