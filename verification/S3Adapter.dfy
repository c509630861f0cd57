/** `S3Adapter` below its calls: reading a body of a declared size from a stream, and what a
    listing gathered from pages is; neither depends on how the service cuts what it sends. */
module S3Adapter {
  import opened Common
  import opened SnapshotTypes
  import opened Listing
  import opened Snapshot

  /** The stream loop of `S3Adapter.get`: the body is `size` bytes or the read fails,
      however the connection splits it. `cut(k)` bounds what the k-th read returns. */
  method ReadStream(stream: seq<byte>, cut: nat -> pos, size: nat, readChunk: pos) returns (r: Option<seq<byte>>)
    ensures r == if |stream| == size then Some(stream) else None
  {
    var chunks: seq<byte>, total, turn := [], 0, 0;
    while true
      invariant total <= size && total <= |stream| && chunks == stream[..total]
      decreases |stream| - total
    {
      var wanted := Min(readChunk, size - total + 1);
      var arrived := Min(wanted, Min(cut(turn), |stream| - total));
      var chunk := stream[total..total + arrived];
      total, turn := total + |chunk|, turn + 1;
      if size < total {
        return None;
      }
      if chunk == [] {
        break;
      }
      chunks := chunks + chunk;
    }
    assert total == |stream| && stream[..total] == stream;
    r := if total == size then Some(chunks) else None;
  }

  // -------------------------------------------------------------------- listing

  /** The pages answered so far are all truncated, small enough, and their tokens new. */
  predicate Continued(pages: seq<Page>, pageSize: pos) {
    && (forall i :: 0 <= i < |pages| ==>
          && pages[i].truncated && |pages[i].entries| <= pageSize
          && (pages[i].token.Opaque? ==> 1 <= |pages[i].token.text| <= 4096))
    && (forall i, j :: 0 <= i < j < |pages| ==> pages[i].token != pages[j].token)
  }

  /** The listing ends, well formed, with the n-th page. */
  predicate EndsAt(service: seq<Page>, n: nat, limits: Limits) {
    && 0 < n <= |service| && n <= limits.pages
    && Continued(service[..n - 1], limits.pageSize)
    && !service[n - 1].truncated && |service[n - 1].entries| <= limits.pageSize
  }

  function Collected(service: seq<Page>, n: nat, limits: Limits): Option<map<Path, nat>>
    requires n <= |service|
  {
    AddEntries(Entries(service[..n]), map[], limits)
  }

  /** The pages a listing was answered with, up to its end. */
  function PagesOf(log: seq<Exchange>): seq<Page> {
    if log == [] || !log[0].reply.OnePage? then [] else [log[0].reply.page] + PagesOf(log[1..])
  }

  function LastToken(pages: seq<Page>): Option<Token> {
    if pages == [] then None else Some(pages[|pages| - 1].token)
  }

  function TokensOf(pages: seq<Page>): set<Token> {
    set i | 0 <= i < |pages| :: pages[i].token
  }

  /** A listing that was asked for page by page, each behind the token of the one before. */
  predicate AskedInTurn(a: Adapter, id: SnapshotId, after: Option<Token>, log: seq<Exchange>)
    decreases |log|
  {
    log == [] || (log[0].call == ListPage(a.destination, id, a.limits.pageSize, after) && log[0].reply.OnePage?
                  && AskedInTurn(a, id, Some(log[0].reply.page.token), log[1..]))
  }

  /** What `ListPages` has in hand after those pages. */
  predicate InHand(a: Adapter, before: seq<Page>, seen: set<Token>, listed: map<Path, nat>) {
    && |before| <= a.limits.pages && Continued(before, a.limits.pageSize)
    && seen == TokensOf(before) && AddEntries(Entries(before), map[], a.limits) == Some(listed)
  }

  /** The listing over these earlier pages ends with the exchanges given. */
  predicate EndsWith(a: Adapter, id: SnapshotId, before: seq<Page>, log: seq<Exchange>, files: map<Path, nat>) {
    && log != [] && AskedInTurn(a, id, LastToken(before), log)
    && var all := before + PagesOf(log);
    EndsAt(all, |all|, a.limits) && Collected(all, |all|, a.limits) == Some(files)
  }

  /** A page that is neither refused nor the last one. */
  predicate Continues(a: Adapter, before: seq<Page>, seen: set<Token>, page: Page) {
    && |before| < a.limits.pages && |page.entries| <= a.limits.pageSize
    && page.truncated && FreshToken(page.token, seen)
  }

  lemma OnePageMore(a: Adapter, before: seq<Page>, seen: set<Token>, listed: map<Path, nat>, page: Page)
    requires InHand(a, before, seen, listed)
    ensures AddEntries(Entries(before + [page]), map[], a.limits) == AddEntries(page.entries, listed, a.limits)
    ensures Continues(a, before, seen, page) && AddEntries(page.entries, listed, a.limits).Some? ==>
      InHand(a, before + [page], seen + {page.token}, AddEntries(page.entries, listed, a.limits).value)
  {
    hide AddEntries, Entries;
    EntriesAppend(before, page);
    AddEntriesConcat(Entries(before), page.entries, map[], a.limits);
    if FreshToken(page.token, seen) {
      forall i | 0 <= i < |before|
        ensures before[i].token != page.token
      {
        assert before[i].token in TokensOf(before);
      }
      assert TokensOf(before + [page]) == seen + {page.token} by {
        assert (before + [page])[|before|] == page;
        forall i | 0 <= i < |before|
          ensures before[i].token in TokensOf(before + [page])
        {
          assert (before + [page])[i] == before[i];
        }
      }
    }
  }

  predicate AnswersAfter(a: Adapter, id: SnapshotId, before: seq<Page>, x: Exchange) {
    x.call == ListPage(a.destination, id, a.limits.pageSize, LastToken(before)) && x.reply.OnePage?
  }

  lemma EndsOnePage(a: Adapter, id: SnapshotId, before: seq<Page>, x: Exchange, files: map<Path, nat>)
    requires |before| < a.limits.pages && Continued(before, a.limits.pageSize) && AnswersAfter(a, id, before, x)
    requires !x.reply.page.truncated && |x.reply.page.entries| <= a.limits.pageSize
    requires AddEntries(Entries(before + [x.reply.page]), map[], a.limits) == Some(files)
    ensures EndsWith(a, id, before, [x], files)
  {
    hide Continued, AddEntries, Entries;
    var all := before + [x.reply.page];
    assert [x][1..] == [] && PagesOf([x]) == [x.reply.page] + [] == [x.reply.page];
    assert |all| == |before| + 1 && all[|all| - 1] == x.reply.page;
    assert all[..|all| - 1] == before && all[..|all|] == all;
    assert AskedInTurn(a, id, Some(x.reply.page.token), [x][1..]);
  }

  lemma EndsLater(a: Adapter, id: SnapshotId, before: seq<Page>, log: seq<Exchange>, files: map<Path, nat>)
    requires log != [] && AnswersAfter(a, id, before, log[0])
    requires EndsWith(a, id, before + [log[0].reply.page], log[1..], files)
    ensures EndsWith(a, id, before, log, files)
  {
    hide EndsAt, Collected, LastToken;
    var page := log[0].reply.page;
    LastTokenIs(before, page);
    PagesJoin(before, page, PagesOf(log[1..]));
  }

  lemma LastTokenIs(before: seq<Page>, page: Page)
    ensures LastToken(before + [page]) == Some(page.token)
  {
  }

  lemma PagesJoin(before: seq<Page>, page: Page, rest: seq<Page>)
    ensures before + ([page] + rest) == before + [page] + rest
  {
  }

  /** A listing that is accepted was asked for in turn, ends in one of its pages and is what the
      entries of its pages collect to. */
  lemma {:induction false} ListedMeans(a: Adapter, id: SnapshotId, before: seq<Page>, seen: set<Token>, listed: map<Path, nat>,
                                       log: seq<Exchange>) returns (n: nat)
    requires InHand(a, before, seen, listed)
    requires ListPages(a, id, |before|, LastToken(before), seen, listed, log).Got?
    ensures var out := ListPages(a, id, |before|, LastToken(before), seen, listed, log);
      0 < n <= |log| && out.rest == log[n..] && EndsWith(a, id, before, log[..n], out.value)
    decreases a.limits.pages - |before|
  {
    hide AddEntries, Entries, Suffix, Continued, InHand, FreshToken, TokensOf, EndsAt, EndsWith;
    var page := log[0].reply.page;
    OnePageMore(a, before, seen, listed, page);
    InHandFacts(a, before, seen, listed);
    if !page.truncated {
      n := 1;
      assert log[..1] == [log[0]];
      EndsOnePage(a, id, before, log[0], AddEntries(page.entries, listed, a.limits).value);
    } else {
      var next := before + [page];
      var added := AddEntries(page.entries, listed, a.limits).value;
      var m := ListedMeans(a, id, next, seen + {page.token}, added, log[1..]);
      n := m + 1;
      assert log[..n][1..] == log[1..][..m] && log[..n][0] == log[0];
      EndsLater(a, id, before, log[..n], ListPages(a, id, |before|, LastToken(before), seen, listed, log).value);
    }
  }

  lemma InHandFacts(a: Adapter, before: seq<Page>, seen: set<Token>, listed: map<Path, nat>)
    requires InHand(a, before, seen, listed)
    ensures |before| <= a.limits.pages && Continued(before, a.limits.pageSize)
  {
  }

  lemma {:induction false} PagesCounted(a: Adapter, id: SnapshotId, after: Option<Token>, log: seq<Exchange>)
    requires AskedInTurn(a, id, after, log)
    ensures |PagesOf(log)| == |log|
    decreases |log|
  {
    if log != [] {
      PagesCounted(a, id, Some(log[0].reply.page.token), log[1..]);
    }
  }

  lemma {:induction false} EntriesJoin(p: seq<Page>, q: seq<Page>)
    ensures Entries(p + q) == Entries(p) + Entries(q)
  {
    if p == [] {
      assert p + q == q;
    } else {
      assert (p + q)[1..] == p[1..] + q;
      EntriesJoin(p[1..], q);
    }
  }

  /** A page in front of others of a listing that ends well: it continues, and what is gathered so
      far is not refused. */
  lemma EarlierContinues(a: Adapter, before: seq<Page>, page: Page, rest: seq<Page>, seen: set<Token>, files: map<Path, nat>)
    requires InHandTokens(before, seen) && rest != []
    requires var all := before + [page] + rest; EndsAt(all, |all|, a.limits) && Collected(all, |all|, a.limits) == Some(files)
    ensures Continues(a, before, seen, page)
    ensures AddEntries(Entries(before + [page]), map[], a.limits).Some?
  {
    hide EndsAt, Collected, Continued, AddEntries, Entries, TokensOf;
    EarlierPageFine(a, before, page, rest, seen);
    EarlierEntriesFine(a, before, page, rest, files);
  }

  lemma EarlierPageFine(a: Adapter, before: seq<Page>, page: Page, rest: seq<Page>, seen: set<Token>)
    requires InHandTokens(before, seen) && rest != []
    requires EndsAt(before + [page] + rest, |before + [page] + rest|, a.limits)
    ensures Continues(a, before, seen, page)
  {
    var all := before + [page] + rest;
    var front := all[..|all| - 1];
    assert front[|before|] == page;
    forall i | 0 <= i < |before|
      ensures before[i].token != page.token
    {
      assert front[i] == before[i];
    }
  }

  lemma EarlierEntriesFine(a: Adapter, before: seq<Page>, page: Page, rest: seq<Page>, files: map<Path, nat>)
    requires Collected(before + [page] + rest, |before + [page] + rest|, a.limits) == Some(files)
    ensures AddEntries(Entries(before + [page]), map[], a.limits).Some?
  {
    hide AddEntries, Entries;
    var all := before + [page] + rest;
    assert all[..|all|] == all;
    EntriesJoin(before + [page], rest);
    AddEntriesConcat(Entries(before + [page]), Entries(rest), map[], a.limits);
  }

  predicate InHandTokens(before: seq<Page>, seen: set<Token>) {
    seen == TokensOf(before)
  }

  lemma LastDecides(a: Adapter, before: seq<Page>, page: Page, files: map<Path, nat>)
    requires var all := before + [page]; EndsAt(all, |all|, a.limits) && Collected(all, |all|, a.limits) == Some(files)
    ensures |before| < a.limits.pages && !page.truncated && |page.entries| <= a.limits.pageSize
    ensures AddEntries(Entries(before + [page]), map[], a.limits) == Some(files)
  {
    hide Continued, AddEntries, Entries;
    assert (before + [page])[..|before| + 1] == before + [page];
  }

  /** And every such listing is accepted, whatever is answered later. */
  lemma {:induction false} MeansListed(a: Adapter, id: SnapshotId, before: seq<Page>, seen: set<Token>, listed: map<Path, nat>,
                                       log: seq<Exchange>, files: map<Path, nat>, more: seq<Exchange>)
    requires InHand(a, before, seen, listed) && EndsWith(a, id, before, log, files)
    ensures ListPages(a, id, |before|, LastToken(before), seen, listed, log + more) == Got(files, more)
    decreases |log|
  {
    hide AddEntries, Entries, Suffix, Continued, FreshToken, TokensOf, EndsAt, Collected, LastToken, UsableToken;
    var page := log[0].reply.page;
    var rest := PagesOf(log[1..]);
    PagesCounted(a, id, LastToken(before), log);
    PagesJoin(before, page, rest);
    OnePageMore(a, before, seen, listed, page);
    LastTokenIs(before, page);
    assert (log + more)[0] == log[0] && (log + more)[1..] == log[1..] + more;
    if |log| == 1 {
      assert log[1..] == [] && before + [page] + [] == before + [page] && [] + more == more;
      LastDecides(a, before, page, files);
    } else {
      EarlierContinues(a, before, page, rest, seen, files);
      var added := AddEntries(page.entries, listed, a.limits).value;
      MeansListed(a, id, before + [page], seen + {page.token}, added, log[1..], files, more);
    }
  }

  /** `list_snapshot` succeeds exactly when its pages, asked for in turn, are well formed and end
      within the page budget, and all their entries together are a valid duplicate-free listing. */
  lemma ListedExactly(a: Adapter, id: SnapshotId, log: seq<Exchange>, files: map<Path, nat>, rest: seq<Exchange>)
    ensures ListSnapshot(a, id, log) == Got(files, rest) <==>
      exists n :: 0 < n <= |log| && rest == log[n..] && EndsWith(a, id, [], log[..n], files)
  {
    hide ListPages, EndsWith;
    NothingInHand(a);
    if ListSnapshot(a, id, log).Got? {
      var n := ListedMeans(a, id, [], {}, map[], log);
      assert ListSnapshot(a, id, log) == Got(files, rest) ==> rest == log[n..] && EndsWith(a, id, [], log[..n], files);
    }
    forall n | 0 < n <= |log| && rest == log[n..] && EndsWith(a, id, [], log[..n], files)
      ensures ListSnapshot(a, id, log) == Got(files, rest)
    {
      assert log[..n] + rest == log;
      MeansListed(a, id, [], {}, map[], log[..n], files, rest);
    }
  }

  lemma NothingInHand(a: Adapter)
    ensures InHand(a, [], {}, map[]) && LastToken([]) == None
  {
  }

  /** What is listed depends on the directory, not on how it was cut into pages or ordered. */
  lemma PaginationIrrelevant(a: Adapter, id: SnapshotId, one: seq<Exchange>, other: seq<Exchange>, files: map<Path, nat>)
    requires ListingOf(a, id, one, files) && ListingOf(a, id, other, files) && |files| <= a.limits.objects
    requires forall path | path in files :: EntryAllowed((path, files[path]), a.limits)
    ensures ListSnapshot(a, id, one) == ListSnapshot(a, id, other) == Got(files, [])
  {
    hide ListPages, ListingOf, EntryAllowed;
    DirectoryListed(a, id, one, files);
    DirectoryListed(a, id, other, files);
  }

  /** Pages asked for in turn that end well and together name every file of a directory once. */
  predicate ListingOf(a: Adapter, id: SnapshotId, log: seq<Exchange>, files: map<Path, nat>) {
    && log != [] && AskedInTurn(a, id, None, log)
    && EndsAt(PagesOf(log), |PagesOf(log)|, a.limits)
    && ExtendsListing(map[], Entries(PagesOf(log)), files)
  }

  lemma DirectoryListed(a: Adapter, id: SnapshotId, log: seq<Exchange>, files: map<Path, nat>)
    requires ListingOf(a, id, log, files) && |files| <= a.limits.objects
    requires forall path | path in files :: EntryAllowed((path, files[path]), a.limits)
    ensures ListSnapshot(a, id, log) == Got(files, [])
  {
    hide ListPages, AskedInTurn, EndsAt, AddEntries, Entries, EntryAllowed;
    var pages := PagesOf(log);
    assert [] + pages == pages && pages[..|pages|] == pages && log + [] == log;
    CollectsExactly(Entries(pages), map[], files, a.limits);
    NothingInHand(a);
    MeansListed(a, id, [], {}, map[], log, files, []);
  }
}
