/** How the mail source selects the messages of one run: paging through a newest-first listing up to
    the checkpoint, then taking the oldest of what is newer. */
module MailSource {
  import opened Wrappers
  import opened Records

  /** The pages the listing would return, newest message first, and the fetch that fails, if any. The
      last page has no next-page token. */
  datatype PageFailure = PageFailure(page: nat, transient: bool)
  datatype Listing = Listing(pages: seq<seq<string>>, failure: Option<PageFailure>)

  datatype Selection =
    | Selected(ids: seq<string>)
    | CheckpointNotFound
    | ListingFailed(transient: bool)

  /******* Sequences *******/

  function Reverse<T>(s: seq<T>): (r: seq<T>)
    ensures |r| == |s|
    ensures forall i :: 0 <= i < |s| ==> r[i] == s[|s| - 1 - i]
  {
    seq(|s|, i requires 0 <= i < |s| => s[|s| - 1 - i])
  }

  function Take<T>(s: seq<T>, n: nat): seq<T> {
    if |s| > n then s[..n] else s
  }

  function Flatten(pages: seq<seq<string>>): seq<string> {
    if pages == [] then [] else pages[0] + Flatten(pages[1..])
  }

  /** What the paging loop can see: it stops at the first empty page. */
  function Visible(pages: seq<seq<string>>): seq<string> {
    if pages == [] || pages[0] == [] then [] else pages[0] + Visible(pages[1..])
  }

  /** The messages listed before the first occurrence of `x`. */
  function Before(x: string, s: seq<string>): seq<string> {
    if s == [] || s[0] == x then [] else [s[0]] + Before(x, s[1..])
  }

  lemma {:induction false} BeforeAt(x: string, s: seq<string>, i: nat)
    requires i < |s| && s[i] == x && x !in s[..i]
    ensures Before(x, s) == s[..i]
  {
    if i > 0 {
      assert s[0] in s[..i];
      assert s[1..][..i - 1] == s[1..i];
      assert forall y :: y in s[1..i] ==> y in s[..i];
      BeforeAt(x, s[1..], i - 1);
      assert [s[0]] + s[1..i] == s[..i];
    }
  }

  lemma {:induction false} BeforeConcat(x: string, a: seq<string>, b: seq<string>)
    ensures Before(x, a + b) == if x in a then Before(x, a) else a + Before(x, b)
  {
    if a == [] {
      assert a + b == b;
    } else if a[0] == x {
      assert (a + b)[0] == x;
    } else {
      assert (a + b)[0] == a[0] && (a + b)[1..] == a[1..] + b;
      BeforeConcat(x, a[1..], b);
      assert [a[0]] + (a[1..] + Before(x, b)) == a + Before(x, b);
    }
  }

  lemma {:induction false} VisibleIsPrefix(pages: seq<seq<string>>)
    ensures Visible(pages) <= Flatten(pages)
  {
    if pages != [] && pages[0] != [] {
      VisibleIsPrefix(pages[1..]);
    }
  }

  /** Paging sees exactly the pages in front of the first empty one. */
  lemma {:induction false} VisibleEndsAtEmptyPage(pages: seq<seq<string>>, k: nat)
    requires k <= |pages| && (forall i :: 0 <= i < k ==> pages[i] != []) && (k < |pages| ==> pages[k] == [])
    ensures Visible(pages) == Flatten(pages[..k])
  {
    if k > 0 {
      VisibleEndsAtEmptyPage(pages[1..], k - 1);
      assert pages[..k][1..] == pages[1..][..k - 1];
    }
  }

  /******* Collecting *******/

  datatype Collected = Pending(ids: seq<string>, found: bool) | FetchFailed(transient: bool)

  function ConsPage(page: seq<string>, rest: Collected): Collected {
    if rest.Pending? then rest.(ids := page + rest.ids) else rest
  }

  predicate FailsAt(l: Listing, k: nat) {
    l.failure.Some? && l.failure.value.page == k
  }

  predicate Names(checkpoint: JsonValue, id: string) {
    checkpoint.Truthy() && checkpoint == Str(id)
  }

  predicate NamedIn(checkpoint: JsonValue, page: seq<string>) {
    checkpoint.Str? && checkpoint.Truthy() && checkpoint.s in page
  }

  function PageAt(l: Listing, k: nat): seq<string> {
    if k < |l.pages| then l.pages[k] else []
  }

  /** What the paging loop has collected from page `k` on. */
  function Collect(l: Listing, checkpoint: JsonValue, k: nat): Collected
    decreases |l.pages| - k
  {
    if FailsAt(l, k) then FetchFailed(l.failure.value.transient)
    else if PageAt(l, k) == [] then Pending([], checkpoint.Null?)
    else if NamedIn(checkpoint, PageAt(l, k)) then Pending(Before(checkpoint.s, PageAt(l, k)), true)
    else if checkpoint.Null? || k + 1 >= |l.pages| then Pending(PageAt(l, k), checkpoint.Null?)
    else ConsPage(PageAt(l, k), Collect(l, checkpoint, k + 1))
  }

  function Select(l: Listing, checkpoint: JsonValue, maxMessages: nat): Selection {
    match Collect(l, checkpoint, 0)
    case FetchFailed(transient) => ListingFailed(transient)
    case Pending(ids, found) =>
      if checkpoint.Truthy() && !found then CheckpointNotFound else Selected(Take(Reverse(ids), maxMessages))
  }

  /** One page: the ids in front of the checkpoint, or all of them, appended to what was pending. */
  method ScanPage(checkpoint: JsonValue, page: seq<string>, before: seq<string>)
    returns (pending: seq<string>, seen: bool)
    ensures seen <==> NamedIn(checkpoint, page)
    ensures pending == before + if seen then Before(checkpoint.s, page) else page
  {
    pending, seen := before, false;
    var j := 0;
    while j < |page| && !seen
      invariant 0 <= j <= |page|
      invariant pending == before + page[..j]
      invariant !NamedIn(checkpoint, page[..j])
      invariant seen ==> j < |page| && Names(checkpoint, page[j])
      decreases |page| - j, !seen
    {
      if Names(checkpoint, page[j]) {
        seen := true;
      } else {
        pending := pending + [page[j]];
        j := j + 1;
      }
    }
    if seen {
      BeforeAt(checkpoint.s, page, j);
    } else {
      assert page[..j] == page;
    }
  }

  lemma PageStep(l: Listing, checkpoint: JsonValue, k: nat, pending: seq<string>)
    requires !FailsAt(l, k) && PageAt(l, k) != []
    ensures var page := PageAt(l, k);
            (ConsPage(pending, Collect(l, checkpoint, k))
             == if NamedIn(checkpoint, page) then Pending(pending + Before(checkpoint.s, page), true)
                else if checkpoint.Null? || k + 1 >= |l.pages| then Pending(pending + page, checkpoint.Null?)
                else ConsPage(pending + page, Collect(l, checkpoint, k + 1)))
  {
    var page, rest := PageAt(l, k), Collect(l, checkpoint, k + 1);
    assert rest.Pending? ==> pending + (page + rest.ids) == (pending + page) + rest.ids;
  }

  method SelectNewMessages(l: Listing, checkpoint: JsonValue, maxMessages: nat) returns (r: Selection)
    ensures r == Select(l, checkpoint, maxMessages)
  {
    var pending: seq<string> := [];
    var found := checkpoint.Null?;
    var k: nat := 0;
    while true
      invariant k == 0 || k < |l.pages|
      invariant found == checkpoint.Null? && (k > 0 ==> !found)
      invariant Collect(l, checkpoint, 0) == ConsPage(pending, Collect(l, checkpoint, k))
      decreases |l.pages| + 1 - k
    {
      if FailsAt(l, k) {
        return ListingFailed(l.failure.value.transient);
      }
      var page := PageAt(l, k);
      if page == [] {
        assert pending + [] == pending;
        break;
      }
      PageStep(l, checkpoint, k, pending);
      var seen;
      pending, seen := ScanPage(checkpoint, page, pending);
      found := found || seen;
      if found || k + 1 >= |l.pages| {
        break;
      }
      k := k + 1;
    }
    assert Collect(l, checkpoint, 0) == Pending(pending, found);
    if checkpoint.Truthy() && !found {
      return CheckpointNotFound;
    }
    pending := Reverse(pending);
    if |pending| > maxMessages {
      pending := pending[..maxMessages];
    }
    return Selected(pending);
  }

  /******* What is selected *******/

  lemma {:induction false} CollectFrom(l: Listing, x: string, k: nat)
    requires x != "" && k <= |l.pages|
    ensures var col := Collect(l, Str(x), k);
            && (col.Pending? ==> (col.found <==> x in Visible(l.pages[k..])))
            && (col.Pending? && col.found ==> col.ids == Before(x, Flatten(l.pages[k..])))
            && (col.FetchFailed? ==>
                  l.failure.Some? && k <= l.failure.value.page && l.failure.value.transient == col.transient)
            && (l.failure.None? ==> col.Pending?)
    decreases |l.pages| - k
  {
    if !FailsAt(l, k) && PageAt(l, k) != [] {
      var page := l.pages[k];
      assert l.pages[k..][0] == page && l.pages[k..][1..] == l.pages[k + 1..];
      BeforeConcat(x, page, Flatten(l.pages[k + 1..]));
      if k + 1 < |l.pages| {
        CollectFrom(l, x, k + 1);
      }
    }
  }

  /** For any checkpoint id and any split into pages, empty ones included: either a fetch failed, or the
      checkpoint is not among the visible pages and its absence is raised, or exactly the oldest
      `maxMessages` of the messages newer than it are selected, oldest first. */
  lemma SelectsOldestNewer(l: Listing, x: string, maxMessages: nat)
    requires x != ""
    ensures match Select(l, Str(x), maxMessages) {
              case Selected(ids) =>
                x in Visible(l.pages) && ids == Take(Reverse(Before(x, Flatten(l.pages))), maxMessages)
              case CheckpointNotFound => x !in Visible(l.pages)
              case ListingFailed(transient) => l.failure.Some? && l.failure.value.transient == transient
            }
    ensures l.failure.None? ==> (Select(l, Str(x), maxMessages).Selected? <==> x in Visible(l.pages))
  {
    CollectFrom(l, x, 0);
    assert l.pages[0..] == l.pages;
  }

  /** Page `n` is fetched when the listing has it, or it is the first, and no page before it is empty or holds
      the checkpoint. */
  predicate Reaches(l: Listing, x: string, n: nat) {
    (n == 0 || n < |l.pages|) && forall i :: 0 <= i < n ==> PageAt(l, i) != [] && x !in PageAt(l, i)
  }

  lemma {:induction false} CollectFailsIff(l: Listing, x: string, k: nat)
    requires x != "" && Reaches(l, x, k)
    ensures Collect(l, Str(x), k).FetchFailed?
       <==> l.failure.Some? && k <= l.failure.value.page && Reaches(l, x, l.failure.value.page)
    decreases |l.pages| - k
  {
    if !FailsAt(l, k) && PageAt(l, k) != [] && !NamedIn(Str(x), PageAt(l, k)) && k + 1 < |l.pages| {
      CollectFailsIff(l, x, k + 1);
    }
  }

  /** A failing fetch is raised exactly when paging comes to its page. */
  lemma ListingFailsIff(l: Listing, x: string, maxMessages: nat)
    requires x != ""
    ensures Select(l, Str(x), maxMessages).ListingFailed? <==> l.failure.Some? && Reaches(l, x, l.failure.value.page)
  {
    CollectFailsIff(l, x, 0);
  }

  predicate Distinct(mail: seq<string>) {
    forall i, j :: 0 <= i < j < |mail| ==> mail[i] != mail[j]
  }

  /** The same against the mailbox, oldest message first: the selection starts right behind the
      checkpoint and has no hole. */
  lemma SelectsWithoutHole(mail: seq<string>, k: nat, l: Listing, maxMessages: nat)
    requires Distinct(mail) && k < |mail| && mail[k] != "" && Flatten(l.pages) == Reverse(mail)
    ensures Select(l, Str(mail[k]), maxMessages).Selected? ==>
              Select(l, Str(mail[k]), maxMessages).ids == Take(mail[k + 1..], maxMessages)
    ensures l.failure.None? && mail[k] in Visible(l.pages) ==> Select(l, Str(mail[k]), maxMessages).Selected?
  {
    var newest, i := Reverse(mail), |mail| - 1 - k;
    SelectsOldestNewer(l, mail[k], maxMessages);
    assert newest[i] == mail[k];
    forall j | 0 <= j < i ensures newest[..i][j] != mail[k] {
      assert newest[..i][j] == mail[|mail| - 1 - j];
    }
    BeforeAt(mail[k], newest, i);
    assert Reverse(newest[..i]) == mail[k + 1..];
  }

  /** Without a checkpoint only the first page is read, so a backfill starts at the oldest message of
      that page: it reaches the oldest message of the mailbox if and only if the first page holds
      everything. */
  lemma NullCheckpointReadsOnePage(l: Listing, maxMessages: nat)
    requires l.failure.None? && l.pages != [] && maxMessages > 0 && Flatten(l.pages) != []
    requires Distinct(Flatten(l.pages))
    ensures Select(l, Null, maxMessages) == Selected(Take(Reverse(l.pages[0]), maxMessages))
    ensures var oldest := Reverse(Flatten(l.pages))[0];
            oldest in Select(l, Null, maxMessages).ids <==> Flatten(l.pages) == l.pages[0]
  {
    var all, page := Flatten(l.pages), l.pages[0];
    var ids := Select(l, Null, maxMessages).ids;
    assert all == page + Flatten(l.pages[1..]);
    assert ids <= Reverse(page);
    var oldest := Reverse(all)[0];
    assert oldest == all[|all| - 1];
    if Flatten(l.pages[1..]) != [] {
      forall j | 0 <= j < |ids| ensures ids[j] != oldest {
        assert ids[j] == all[|page| - 1 - j];
      }
    }
    if all == page {
      assert ids[0] == oldest;
    }
  }
}
