/**
 * The dependent collector: `getDependents` and `parseDependentsFromHTML`.
 *
 * The listing page of one request is abstracted as the `href` attributes of
 * its repository hovercard anchors, in document order. The server is given
 * as a finite list of responses: entry `i` answers the `i`-th request,
 * which is the request for page `i + 1`.
 */
module Collector {
  import opened Wrappers
  import opened Http

  /** Cap on the number of dependents collected. */
  const MAX_DEPENDENTS: nat := 500

  /** The outcome of fetching one listing page: the anchors' `href`s on success. */
  type PageOutcome = Fetch<seq<string>>

  /** What a run of the loop ends with: the dependents and how many pages it requested. */
  datatype Collected = Collected(dependents: seq<string>, fetched: nat)

  function Min(a: int, b: int): int { if a <= b then a else b }

  /** `href.substring(1)`: the string without its first character ("" stays ""). */
  function DropFirst(href: string): (id: string)
    ensures href == [] ==> id == []
    ensures href != [] ==> href == [href[0]] + id
  {
    if href == [] then [] else href[1..]
  }

  /** The identifiers a listing page yields: the first `MAX_DEPENDENTS` hrefs, each without its first character. */
  function Extract(hrefs: seq<string>): seq<string>
  {
    seq(Min(|hrefs|, MAX_DEPENDENTS), i requires 0 <= i < Min(|hrefs|, MAX_DEPENDENTS) => DropFirst(hrefs[i]))
  }

  /** `parseDependentsFromHTML`: pushes inside `.each` while fewer than the cap are held. */
  method ParseDependentsFromHtml(hrefs: seq<string>) returns (dependents: seq<string>)
    ensures |dependents| == Min(|hrefs|, MAX_DEPENDENTS)
    ensures forall i :: 0 <= i < |dependents| ==> dependents[i] == DropFirst(hrefs[i])
    ensures dependents == Extract(hrefs)
  {
    dependents := [];
    for i := 0 to |hrefs|
      invariant |dependents| == Min(i, MAX_DEPENDENTS)
      invariant forall k :: 0 <= k < |dependents| ==> dependents[k] == DropFirst(hrefs[k])
    {
      if |dependents| < MAX_DEPENDENTS {
        dependents := dependents + [DropFirst(hrefs[i])];
      }
    }
  }

  /** The identifiers a page outcome contributes: only a 200 response contributes any. */
  function PageIds(o: PageOutcome): seq<string>
  {
    if o.Received? && o.status == OK then Extract(o.data) else []
  }

  /** The identifiers of a run of page outcomes, concatenated in request order. */
  function PagesIds(s: seq<PageOutcome>): seq<string>
  {
    if s == [] then [] else PageIds(s[0]) + PagesIds(s[1..])
  }

  /** The first `n` elements of `s`, or all of `s` when it is shorter. */
  function Take(s: seq<string>, n: nat): seq<string>
  {
    if |s| <= n then s else s[..n]
  }

  /**
   * An outcome that ends the loop whatever has been accumulated: a 200 page
   * with no identifiers, a response with another status, or an error other
   * than 429.
   */
  predicate Stops(o: PageOutcome)
  {
    match o
    case Received(status, hrefs) => status != OK || Extract(hrefs) == []
    case Rejected(errorStatus) => errorStatus != Some(TOO_MANY_REQUESTS)
  }

  /**
   * The loop of `getDependents` as a function: `acc` is the `dependents`
   * array at the head of the loop and `responses` the outcomes of the requests
   * still to come. When the list of responses runs out the run ends there.
   */
  function Collect(acc: seq<string>, responses: seq<PageOutcome>): Collected
    decreases |responses|
  {
    if |acc| >= MAX_DEPENDENTS || responses == [] then Collected(acc, 0)
    else
      match responses[0]
      case Received(status, hrefs) =>
        if status != OK then Collected(acc, 1)
        else
          var ids := Extract(hrefs);
          if ids == [] then Collected(acc, 1)
          else if |acc + ids| >= MAX_DEPENDENTS then Collected((acc + ids)[..MAX_DEPENDENTS], 1)
          else NextPage(Collect(acc + ids, responses[1..]))
      case Rejected(errorStatus) =>
        if errorStatus == Some(TOO_MANY_REQUESTS) then NextPage(Collect(acc, responses[1..]))
        else Collected(acc, 1)
  }

  /** The run of the later pages, counting one more page requested before them. */
  function NextPage(later: Collected): Collected
  {
    Collected(later.dependents, later.fetched + 1)
  }

  /**
   * `getDependents`. `requested` lists the page numbers put into the request
   * URLs, in order.
   */
  method GetDependents(responses: seq<PageOutcome>) returns (dependents: seq<string>, requested: seq<nat>)
    ensures dependents == Collect([], responses).dependents
    ensures |requested| == Collect([], responses).fetched
    ensures forall i :: 0 <= i < |requested| ==> requested[i] == i + 1
    ensures |dependents| <= MAX_DEPENDENTS
  {
    dependents := [];
    requested := [];
    var page: nat := 1;
    ghost var total := Collect([], responses);
    while |dependents| < MAX_DEPENDENTS
      invariant 1 <= page <= |responses| + 1
      invariant |requested| == page - 1
      invariant forall i :: 0 <= i < |requested| ==> requested[i] == i + 1
      invariant |dependents| < MAX_DEPENDENTS
      invariant total.dependents == Collect(dependents, responses[page - 1..]).dependents
      invariant total.fetched == page - 1 + Collect(dependents, responses[page - 1..]).fetched
      decreases |responses| - page
    {
      if page > |responses| {
        // The list of responses has run out.
        break;
      }
      ghost var rest := responses[page - 1..];
      assert rest[0] == responses[page - 1] && rest[1..] == responses[page..];
      requested := requested + [page];
      match responses[page - 1] {
        case Received(status, hrefs) =>
          if status == OK {
            var pageDependents := ParseDependentsFromHtml(hrefs);
            if |pageDependents| == 0 {
              break;
            }
            dependents := dependents + pageDependents;
            if |dependents| >= MAX_DEPENDENTS {
              dependents := dependents[..MAX_DEPENDENTS];
              break;
            }
          } else {
            break;
          }
        case Rejected(errorStatus) =>
          if errorStatus == Some(TOO_MANY_REQUESTS) {
            // `getDependents` waits a minute here; the page cursor still advances below.
          } else {
            break;
          }
      }
      page := page + 1;
    }
    CollectBounded([], responses);
  }

  lemma {:induction false} PagesIdsAppend(a: seq<PageOutcome>, b: seq<PageOutcome>)
    ensures PagesIds(a + b) == PagesIds(a) + PagesIds(b)
    decreases |a|
  {
    if a == [] {
      assert a + b == b;
    } else {
      assert (a + b)[0] == a[0] && (a + b)[1..] == a[1..] + b;
      PagesIdsAppend(a[1..], b);
    }
  }

  /** Dropping the first outcome of a window drops the identifiers of that page. */
  lemma PagesIdsWindow(s: seq<PageOutcome>, k: nat)
    requires 1 <= k <= |s|
    ensures PagesIds(s[..k]) == PageIds(s[0]) + PagesIds(s[1..][..k - 1])
  {
    assert s[..k][0] == s[0];
    assert s[..k][1..] == s[1..][..k - 1];
  }

  /**
   * One request of the loop: either the run ends on this page with what
   * `Collect` returns, or it goes on with the accumulator grown by the page's
   * identifiers, under the cap.
   */
  lemma CollectStep(acc: seq<string>, responses: seq<PageOutcome>)
    requires |acc| < MAX_DEPENDENTS && responses != []
    ensures var r := Collect(acc, responses);
      if Stops(responses[0]) || |acc + PageIds(responses[0])| >= MAX_DEPENDENTS
      then r == Collected(Take(acc + PageIds(responses[0]), MAX_DEPENDENTS), 1)
      else r == NextPage(Collect(acc + PageIds(responses[0]), responses[1..]))
  {
    if responses[0].Rejected? {
      assert acc + PageIds(responses[0]) == acc;
    }
  }

  /**
   * The dependents a run returns are exactly the identifiers of the pages it
   * fetched, appended to the accumulator in request order and cut at the cap.
   */
  lemma {:induction false} CollectIsCappedConcat(acc: seq<string>, responses: seq<PageOutcome>)
    requires |acc| <= MAX_DEPENDENTS
    ensures Collect(acc, responses).fetched <= |responses|
    ensures Collect(acc, responses).dependents
         == Take(acc + PagesIds(responses[..Collect(acc, responses).fetched]), MAX_DEPENDENTS)
    decreases |responses|
  {
    var r := Collect(acc, responses);
    if |acc| >= MAX_DEPENDENTS || responses == [] {
      assert r == Collected(acc, 0);
      assert responses[..0] == [];
    } else {
      var o := responses[0];
      var acc' := acc + PageIds(o);
      CollectStep(acc, responses);
      PagesIdsShift(acc, responses, 1);
      if Stops(o) || |acc'| >= MAX_DEPENDENTS {
        assert r == Collected(Take(acc', MAX_DEPENDENTS), 1);
        assert responses[1..][..0] == [];
      } else {
        var rest := Collect(acc', responses[1..]);
        assert r == NextPage(rest);
        CollectIsCappedConcat(acc', responses[1..]);
        PagesIdsShift(acc, responses, rest.fetched + 1);
      }
    }
  }

  /** The identifiers of the first `k` pages: those of the first page, then those of the next `k - 1`. */
  lemma PagesIdsShift(acc: seq<string>, s: seq<PageOutcome>, k: nat)
    requires 1 <= k <= |s|
    ensures acc + PagesIds(s[..k]) == (acc + PageIds(s[0])) + PagesIds(s[1..][..k - 1])
  {
    PagesIdsWindow(s, k);
  }

  /** `getDependents` never returns more than `MAX_DEPENDENTS` identifiers. */
  lemma CollectBounded(acc: seq<string>, responses: seq<PageOutcome>)
    requires |acc| <= MAX_DEPENDENTS
    ensures |Collect(acc, responses).dependents| <= MAX_DEPENDENTS
  {
    CollectIsCappedConcat(acc, responses);
  }

  lemma {:induction false} PagesIdsPrefix(s: seq<PageOutcome>, k: nat)
    requires k <= |s|
    ensures PagesIds(s[..k]) <= PagesIds(s)
  {
    assert s == s[..k] + s[k..];
    PagesIdsAppend(s[..k], s[k..]);
  }

  /**
   * The accumulator is never cut back, and the result is an order-preserving
   * prefix of the accumulator followed by every successful page's identifiers.
   */
  lemma CollectIsPrefixOfPages(acc: seq<string>, responses: seq<PageOutcome>)
    requires |acc| <= MAX_DEPENDENTS
    ensures acc <= Collect(acc, responses).dependents
    ensures Collect(acc, responses).dependents <= acc + PagesIds(responses)
  {
    var r := Collect(acc, responses);
    CollectIsCappedConcat(acc, responses);
    PagesIdsPrefix(responses, r.fetched);
    var all := acc + PagesIds(responses[..r.fetched]);
    assert all <= acc + PagesIds(responses);
    assert acc <= all;
  }

  /**
   * Every page before the last one requested was a 429 or a non-empty 200
   * page, and left the total under the cap.
   */
  lemma {:induction false} CollectContinuesBefore(acc: seq<string>, responses: seq<PageOutcome>)
    requires |acc| < MAX_DEPENDENTS
    ensures Collect(acc, responses).fetched <= |responses|
    ensures forall i :: 0 <= i < Collect(acc, responses).fetched - 1 ==> !Stops(responses[i])
    ensures forall j :: 1 <= j < Collect(acc, responses).fetched ==>
              |acc + PagesIds(responses[..j])| < MAX_DEPENDENTS
    decreases |responses|
  {
    CollectIsCappedConcat(acc, responses);
    if responses != [] {
      var r := Collect(acc, responses);
      var o := responses[0];
      var acc' := acc + PageIds(o);
      CollectStep(acc, responses);
      if !Stops(o) && |acc'| < MAX_DEPENDENTS {
        var rest := Collect(acc', responses[1..]);
        assert r == NextPage(rest);
        CollectContinuesBefore(acc', responses[1..]);
        forall i | 0 <= i < r.fetched - 1
          ensures !Stops(responses[i])
        {
          if i > 0 {
            assert responses[i] == responses[1..][i - 1];
          }
        }
        forall j | 1 <= j < r.fetched
          ensures |acc + PagesIds(responses[..j])| < MAX_DEPENDENTS
        {
          PagesIdsShift(acc, responses, j);
          if j > 1 {
            assert |acc' + PagesIds(responses[1..][..j - 1])| < MAX_DEPENDENTS;
          } else {
            assert responses[1..][..0] == [];
          }
        }
      }
    }
  }

  /**
   * Unless every response given was consumed, the last page requested is an
   * outcome that stops the loop or the page that reached the cap.
   */
  lemma {:induction false} CollectEndsOn(acc: seq<string>, responses: seq<PageOutcome>)
    requires |acc| < MAX_DEPENDENTS
    ensures responses != [] ==> 0 < Collect(acc, responses).fetched
    ensures Collect(acc, responses).fetched < |responses| ==>
              var n := Collect(acc, responses).fetched;
              0 < n && (Stops(responses[n - 1]) || |acc + PagesIds(responses[..n])| >= MAX_DEPENDENTS)
    decreases |responses|
  {
    if responses != [] {
      var r := Collect(acc, responses);
      var o := responses[0];
      var acc' := acc + PageIds(o);
      CollectStep(acc, responses);
      if !Stops(o) && |acc'| < MAX_DEPENDENTS {
        var rest := Collect(acc', responses[1..]);
        assert r == NextPage(rest);
        CollectEndsOn(acc', responses[1..]);
        if r.fetched < |responses| {
          PagesIdsShift(acc, responses, r.fetched);
          assert responses[r.fetched - 1] == responses[1..][rest.fetched - 1];
        }
      } else {
        assert r.fetched == 1;
        assert acc + PagesIds(responses[..1]) == acc' by {
          PagesIdsShift(acc, responses, 1);
          assert responses[1..][..0] == [];
        }
      }
    }
  }

  /**
   * A 429 does not end the loop and adds nothing: the run goes on with the
   * next response, one more page counted as requested. This equation alone
   * would also fit a loop that retried the page, since the list of responses
   * has one entry per request either way; that the page is skipped rather than
   * retried is what `GetDependents` states, its `requested` page numbers
   * being 1, 2, 3, ... with one per response consumed.
   */
  lemma RateLimitSkipsPage(acc: seq<string>, status: Option<int>, rest: seq<PageOutcome>)
    requires |acc| < MAX_DEPENDENTS
    requires status == Some(TOO_MANY_REQUESTS)
    ensures Collect(acc, [Rejected(status)] + rest)
         == Collected(Collect(acc, rest).dependents, Collect(acc, rest).fetched + 1)
  {
    assert ([Rejected(status)] + rest)[1..] == rest;
  }

  /**
   * An outcome that stops the loop returns the accumulator as it was; the
   * outcomes after it are never requested.
   */
  lemma StoppingPageKeepsAccumulator(acc: seq<string>, o: PageOutcome, rest: seq<PageOutcome>)
    requires |acc| < MAX_DEPENDENTS
    requires Stops(o)
    ensures Collect(acc, [o] + rest) == Collected(acc, 1)
  {
  }
}
