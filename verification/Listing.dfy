/** Listings of the keys under a snapshot: the pages a service answers with, what the adapter
    gathers from them, and the pages of a service that fills them in the order of the keys. */
module Listing {
  import opened Common
  import opened SnapshotTypes

  /** A continuation token: behind a key, or any text a service may invent. */
  datatype Token = Cursor(path: Path) | Opaque(text: string)

  datatype Page = Page(entries: seq<(Path, nat)>, truncated: bool, token: Token)

  predicate Listable(path: Path) {
    MaterialPath(path) || path.ManifestFile?
  }

  predicate UsableToken(token: Token) {
    token.Opaque? ==> 0 < |token.text| <= 4096
  }

  // ------------------------------------------------------------------- gathering

  /** Adds the entries of one page; None when one is out of scope, repeated or too large. */
  function AddEntries(entries: seq<(Path, nat)>, listed: map<Path, nat>, limits: Limits): Option<map<Path, nat>> {
    if entries == [] then Some(listed)
    else
      var (path, size) := entries[0];
      if !Listable(path) || path in listed || limits.objectBytes < size || limits.objects < |listed| + 1 then None
      else AddEntries(entries[1..], listed[path := size], limits)
  }

  function Entries(pages: seq<Page>): seq<(Path, nat)> {
    if pages == [] then [] else pages[0].entries + Entries(pages[1..])
  }

  lemma {:induction false} AddEntriesConcat(e: seq<(Path, nat)>, f: seq<(Path, nat)>, listed: map<Path, nat>, limits: Limits)
    ensures var first := AddEntries(e, listed, limits);
            AddEntries(e + f, listed, limits) == if first.None? then None else AddEntries(f, first.value, limits)
    decreases |e|
  {
    if e == [] {
      assert e + f == f;
    } else {
      var (path, size) := e[0];
      assert (e + f)[0] == e[0] && (e + f)[1..] == e[1..] + f;
      if Listable(path) && path !in listed && size <= limits.objectBytes && |listed| + 1 <= limits.objects {
        AddEntriesConcat(e[1..], f, listed[path := size], limits);
      }
    }
  }

  lemma {:induction false} EntriesAppend(pages: seq<Page>, page: Page)
    ensures Entries(pages + [page]) == Entries(pages) + page.entries
  {
    if pages == [] {
      assert pages + [page] == [page] && Entries([page]) == page.entries + Entries([]);
    } else {
      assert (pages + [page])[0] == pages[0] && (pages + [page])[1..] == pages[1..] + [page];
      EntriesAppend(pages[1..], page);
    }
  }

  /** Entries that name distinct files, each with the size `files` gives it. */
  predicate Enumerates(entries: seq<(Path, nat)>, files: map<Path, nat>) {
    && (forall i, j :: 0 <= i < j < |entries| ==> entries[i].0 != entries[j].0)
    && (forall i :: 0 <= i < |entries| ==> entries[i].0 in files && files[entries[i].0] == entries[i].1)
  }

  predicate EntryAllowed(entry: (Path, nat), limits: Limits) {
    Listable(entry.0) && entry.1 <= limits.objectBytes
  }

  /** `files` is `listed` extended by the entries, none of which it repeats. */
  predicate ExtendsListing(listed: map<Path, nat>, entries: seq<(Path, nat)>, files: map<Path, nat>) {
    && Enumerates(entries, files)
    && (forall i :: 0 <= i < |entries| ==> entries[i].0 !in listed)
    && (forall path | path in listed :: path in files && files[path] == listed[path])
    && (forall path | path in files :: path in listed || exists i :: 0 <= i < |entries| && entries[i].0 == path)
  }

  lemma {:induction false} CollectsExactly(entries: seq<(Path, nat)>, listed: map<Path, nat>, files: map<Path, nat>, limits: Limits)
    requires |listed| <= limits.objects
    ensures AddEntries(entries, listed, limits) == Some(files) <==>
              && ExtendsListing(listed, entries, files)
              && (forall i :: 0 <= i < |entries| ==> EntryAllowed(entries[i], limits))
              && |files| <= limits.objects
    decreases |entries|
  {
    if entries == [] {
      if ExtendsListing(listed, entries, files) {
        assert listed == files;
      }
    } else {
      var (path, size) := entries[0];
      var rest := entries[1..];
      var next := listed[path := size];
      if ExtendsListing(listed, entries, files) {
        HeadExtends(listed, entries, files);
      }
      if path !in listed && ExtendsListing(next, rest, files) {
        TailExtends(listed, entries, files);
      }
      if path !in listed && |next| <= limits.objects {
        CollectsExactly(rest, next, files, limits);
      }
      assert forall i :: 0 <= i < |rest| ==> rest[i] == entries[i + 1];
      if ExtendsListing(listed, entries, files) {
        assert next.Keys <= files.Keys;
        SubsetSize(next.Keys, files.Keys);
        assert |next| == |next.Keys| && |files| == |files.Keys|;
      }
    }
  }

  lemma SubsetSize<T>(a: set<T>, b: set<T>)
    requires a <= b
    ensures |a| <= |b|
  {
    assert b == a + (b - a);
  }

  lemma HeadExtends(listed: map<Path, nat>, entries: seq<(Path, nat)>, files: map<Path, nat>)
    requires entries != [] && ExtendsListing(listed, entries, files)
    ensures ExtendsListing(listed[entries[0].0 := entries[0].1], entries[1..], files)
  {
    var rest := entries[1..];
    forall path | path in files && path !in listed && path != entries[0].0
      ensures exists i :: 0 <= i < |rest| && rest[i].0 == path
    {
      var i :| 0 <= i < |entries| && entries[i].0 == path;
      assert rest[i - 1].0 == path;
    }
  }

  lemma TailExtends(listed: map<Path, nat>, entries: seq<(Path, nat)>, files: map<Path, nat>)
    requires entries != [] && entries[0].0 !in listed
    requires ExtendsListing(listed[entries[0].0 := entries[0].1], entries[1..], files)
    ensures ExtendsListing(listed, entries, files)
  {
    var rest := entries[1..];
    assert forall i :: 0 < i < |entries| ==> entries[i] == rest[i - 1];
    forall path | path in files && path !in listed
      ensures exists i :: 0 <= i < |entries| && entries[i].0 == path
    {
      if path == entries[0].0 {
        assert entries[0].0 == path;
      } else {
        var i :| 0 <= i < |rest| && rest[i].0 == path;
        assert entries[i + 1].0 == path;
      }
    }
  }

  // ------------------------------------------------------ pages filled in order

  /** The paths in the order of their texts. */
  ghost function InOrder(paths: set<Path>): (s: seq<Path>)
    ensures |s| == |paths| && (forall path :: path in s <==> path in paths)
    ensures Ordered(s)
  {
    if paths == {} then []
    else
      var path :| path in paths;
      var rest := InOrder(paths - {path});
      InsertOrdered(path, rest);
      Inserted(path, rest)
  }

  predicate Ordered(s: seq<Path>) {
    forall i, j :: 0 <= i < j < |s| ==> Before(s[i], s[j])
  }

  function Inserted(path: Path, s: seq<Path>): (r: seq<Path>)
    ensures |r| == |s| + 1 && forall p :: p in r <==> p == path || p in s
  {
    if s == [] || Before(path, s[0]) then [path] + s
    else
      assert s == [s[0]] + s[1..];
      [s[0]] + Inserted(path, s[1..])
  }

  lemma {:induction false} InsertOrdered(path: Path, s: seq<Path>)
    requires Ordered(s) && path !in s
    ensures Ordered(Inserted(path, s))
  {
    hide Before;
    if s != [] {
      BeforeTotal(path, s[0]);
      if Before(path, s[0]) {
        forall i | 0 <= i < |s|
          ensures Before(path, s[i])
        {
          if i > 0 {
            BeforeTransitive(path, s[0], s[i]);
          }
        }
        OrderedFront(path, s);
      } else {
        InsertOrdered(path, s[1..]);
        forall p | p in s[1..]
          ensures Before(s[0], p)
        {
        }
        OrderedFront(s[0], Inserted(path, s[1..]));
      }
    }
  }

  lemma OrderedFront(path: Path, s: seq<Path>)
    requires Ordered(s) && forall p | p in s :: Before(path, p)
    ensures Ordered([path] + s)
  {
    hide Before;
    forall i, j | 0 <= i < j < |s| + 1
      ensures Before(([path] + s)[i], ([path] + s)[j])
    {
      assert s[j - 1] in s;
    }
  }

  predicate Behind(after: Option<Token>, path: Path) {
    after.None? || (after.value.Cursor? && Before(after.value.path, path))
  }

  function Remaining(listed: map<Path, nat>, after: Option<Token>): set<Path> {
    set path | path in listed && Behind(after, path)
  }

  function EntriesOf(listed: map<Path, nat>, names: seq<Path>): (r: seq<(Path, nat)>)
    requires forall name | name in names :: name in listed
    ensures |r| == |names| && forall i :: 0 <= i < |names| ==> r[i] == (names[i], listed[names[i]])
  {
    if names == [] then [] else EntriesOf(listed, names[..|names| - 1]) + [(names[|names| - 1], listed[names[|names| - 1]])]
  }

  function Taken(names: seq<Path>, size: pos): (r: seq<Path>)
    ensures |r| == Min(|names|, size) && forall i :: 0 <= i < |r| ==> r[i] == names[i]
    ensures forall name | name in r :: name in names
  {
    if |names| <= size then names else names[..size]
  }

  /** The page behind a cursor: as many keys as fit, in order, and whether more are left. */
  ghost function NextPage(listed: map<Path, nat>, after: Option<Token>, size: pos): Page {
    var names := InOrder(Remaining(listed, after));
    Page(EntriesOf(listed, Taken(names, size)), size < |names|, if size < |names| then Cursor(names[size - 1]) else Opaque(""))
  }

  /** No listed key between the cursor and the page's own token is left out of the page. */
  predicate SkipsNothing(listed: map<Path, nat>, after: Option<Token>, page: Page) {
    forall path | path in listed && Behind(after, path) :: OnPage(listed, path, page)
  }

  predicate OnPage(listed: map<Path, nat>, path: Path, page: Page)
    requires path in listed
  {
    (path, listed[path]) in page.entries || (page.truncated && Behind(Some(page.token), path))
  }

  lemma NextPageSkipsNothing(listed: map<Path, nat>, after: Option<Token>, size: pos)
    ensures SkipsNothing(listed, after, NextPage(listed, after, size))
  {
    hide Before;
    var names := InOrder(Remaining(listed, after));
    var page := NextPage(listed, after, size);
    forall path | path in listed && Behind(after, path)
      ensures OnPage(listed, path, page)
    {
      assert path in names;
      var i :| 0 <= i < |names| && names[i] == path;
      if i < |page.entries| {
        assert page.entries[i] == (path, listed[path]);
      }
    }
  }

  /** What has been listed up to a cursor. */
  function Upto(listed: map<Path, nat>, after: Option<Token>): map<Path, nat> {
    map path | path in listed && !Behind(after, path) :: listed[path]
  }

  predicate Cursory(after: Option<Token>) {
    after.None? || after.value.Cursor?
  }

  lemma SplitsAt(listed: map<Path, nat>, after: Option<Token>, names: seq<Path>, size: pos)
    requires Cursory(after) && Ordered(names) && size < |names|
    requires forall path :: path in names <==> path in Remaining(listed, after)
    ensures forall i :: 0 <= i < |names| ==> (Behind(Some(Cursor(names[size - 1])), names[i]) <==> size <= i)
    ensures forall path :: path in Remaining(listed, Some(Cursor(names[size - 1]))) ==> path in Remaining(listed, after)
  {
    hide Before;
    var last := names[size - 1];
    forall i | 0 <= i < |names|
      ensures Before(last, names[i]) <==> size <= i
    {
      BeforeTotal(last, last);
      if i < size - 1 && Before(last, names[i]) {
        BeforeTransitive(last, names[i], last);
      }
    }
    assert last in names;
    forall path | path in listed && Before(last, path)
      ensures Behind(after, path)
    {
      if after.Some? {
        BeforeTransitive(after.value.path, last, path);
      }
    }
  }

  lemma Distinct(names: seq<Path>)
    requires Ordered(names)
    ensures forall i, j :: 0 <= i < j < |names| ==> names[i] != names[j]
  {
    hide Before;
    forall i, j | 0 <= i < j < |names|
      ensures names[i] != names[j]
    {
      BeforeTotal(names[i], names[i]);
    }
  }

  /** One filled page: the first of what remains, and a token that leaves the rest. */
  lemma PageTakes(listed: map<Path, nat>, after: Option<Token>, size: pos)
    requires Cursory(after)
    ensures var page := NextPage(listed, after, size);
      var left := |Remaining(listed, after)|;
      && |page.entries| <= size && (page.truncated <==> size < left)
      && ExtendsListing(Upto(listed, after), page.entries, if page.truncated then Upto(listed, Some(page.token)) else listed)
      && (page.truncated ==>
            && page.token.Cursor? && page.token.path in Remaining(listed, after)
            && page.token.path !in Remaining(listed, Some(page.token))
            && |Remaining(listed, Some(page.token))| == left - size)
  {
    hide Before, Behind, Ordered, ExtendsListing, ListedBy;
    var names := InOrder(Remaining(listed, after));
    var page := NextPage(listed, after, size);
    Distinct(names);
    if size < |names| {
      SplitsAt(listed, after, names, size);
      RestCounted(listed, after, names, size);
      PartListed(listed, after, names, size);
      assert names[size - 1] in names;
      PageExtends(listed, after, names, size, Upto(listed, Some(page.token)));
    } else {
      WholeListed(listed, after, names, size);
      PageExtends(listed, after, names, size, listed);
    }
  }

  /** Listed before the cursor, or on the page behind it. */
  predicate ListedBy(listed: map<Path, nat>, after: Option<Token>, names: seq<Path>, size: pos, path: Path) {
    path in listed && (!Behind(after, path) || exists i :: 0 <= i < Min(|names|, size) && names[i] == path)
  }

  lemma WholeListed(listed: map<Path, nat>, after: Option<Token>, names: seq<Path>, size: pos)
    requires |names| <= size && forall path :: path in names <==> path in Remaining(listed, after)
    ensures forall path :: path in listed <==> ListedBy(listed, after, names, size, path)
  {
    hide Behind;
    forall path | path in listed && Behind(after, path)
      ensures exists i :: 0 <= i < Min(|names|, size) && names[i] == path
    {
      assert path in names;
    }
  }

  lemma PartListed(listed: map<Path, nat>, after: Option<Token>, names: seq<Path>, size: pos)
    requires size < |names| && forall path :: path in names <==> path in Remaining(listed, after)
    requires forall i :: 0 <= i < |names| ==> (Behind(Some(Cursor(names[size - 1])), names[i]) <==> size <= i)
    requires forall path :: path in Remaining(listed, Some(Cursor(names[size - 1]))) ==> path in Remaining(listed, after)
    ensures forall path :: path in Upto(listed, Some(Cursor(names[size - 1]))) <==> ListedBy(listed, after, names, size, path)
  {
    hide Behind;
    var token := Some(Cursor(names[size - 1]));
    forall path | path in listed && Behind(after, path)
      ensures !Behind(token, path) <==> exists i :: 0 <= i < Min(|names|, size) && names[i] == path
    {
      assert path in names;
      var i :| 0 <= i < |names| && names[i] == path;
      assert Behind(token, names[i]) <==> size <= i;
    }
    forall path | path in listed && Behind(token, path)
      ensures Behind(after, path)
    {
      assert path in Remaining(listed, token) && path in Remaining(listed, after);
    }
  }

  lemma PageExtends(listed: map<Path, nat>, after: Option<Token>, names: seq<Path>, size: pos, files: map<Path, nat>)
    requires forall path :: path in names <==> path in Remaining(listed, after)
    requires forall i, j :: 0 <= i < j < |names| ==> names[i] != names[j]
    requires forall path :: path in files <==> ListedBy(listed, after, names, size, path)
    requires forall path | path in files :: path in listed && files[path] == listed[path]
    ensures ExtendsListing(Upto(listed, after), EntriesOf(listed, Taken(names, size)), files)
  {
    hide Behind, EntriesOf, Taken;
    var entries := EntriesOf(listed, Taken(names, size));
    forall i | 0 <= i < |entries|
      ensures entries[i].0 == names[i] && entries[i].0 in Remaining(listed, after)
    {
      assert names[i] in names;
    }
    forall path | path in files && path !in Upto(listed, after)
      ensures exists i :: 0 <= i < |entries| && entries[i].0 == path
    {
      var i :| 0 <= i < Min(|names|, size) && names[i] == path;
      assert entries[i].0 == path;
    }
  }

  lemma RestCounted(listed: map<Path, nat>, after: Option<Token>, names: seq<Path>, size: pos)
    requires size < |names| == |Remaining(listed, after)|
    requires forall path :: path in names <==> path in Remaining(listed, after)
    requires forall i, j :: 0 <= i < j < |names| ==> names[i] != names[j]
    requires forall i :: 0 <= i < |names| ==> (Behind(Some(Cursor(names[size - 1])), names[i]) <==> size <= i)
    requires forall path :: path in Remaining(listed, Some(Cursor(names[size - 1]))) ==> path in Remaining(listed, after)
    ensures |Remaining(listed, Some(Cursor(names[size - 1])))| == |names| - size
  {
    hide Behind;
    var rest := names[size..];
    CountDistinct(rest);
    forall path
      ensures path in rest <==> path in Remaining(listed, Some(Cursor(names[size - 1])))
    {
      if path in rest {
        var i :| 0 <= i < |rest| && rest[i] == path;
        assert names[size + i] == path && names[size + i] in names;
      }
      if path in Remaining(listed, Some(Cursor(names[size - 1]))) {
        assert path in names;
        var i :| 0 <= i < |names| && names[i] == path;
        assert rest[i - size] == path;
      }
    }
    assert Remaining(listed, Some(Cursor(names[size - 1]))) == set path | path in rest;
  }

  lemma {:induction false} CountDistinct(s: seq<Path>)
    requires forall i, j :: 0 <= i < j < |s| ==> s[i] != s[j]
    ensures |set path | path in s| == |s|
  {
    if s != [] {
      var front, last := s[..|s| - 1], s[|s| - 1];
      CountDistinct(front);
      assert s == front + [last];
      assert (set path | path in s) == (set path | path in front) + {last};
    }
  }
}
