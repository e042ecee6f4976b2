/**
  The file search of lld/python/solutions/unix-search-api.py. Files and directories form a
  tree (the composite of entries); a query holds four optional criteria (name, minimum size,
  maximum size, extension) that a file must all satisfy; the searcher walks the tree breadth
  first with a queue of directories and collects the matching files.

  Entries are values: a directory holds the sequence of its entries in insertion order.
  Bfs is the order the searcher visits files in; FilesIn is an independent depth-first
  listing of every file in a tree, and SearchFindsExactly relates the two.
*/
module UnixSearchSolutions {
  import opened Common

  newtype byte = x: int | 0 <= x < 256

  /** A file with its content, or a directory with its entries in the order they were added. */
  datatype Entry =
    | File(name: string, content: seq<byte>)
    | Directory(name: string, entries: seq<Entry>)

  /** The query: each criterion is ignored when absent. */
  datatype SearchParams = SearchParams(
    extension: Option<string>, minSize: Option<int>, maxSize: Option<int>, name: Option<string>)

  // ---------------------------------------------------------------- entries

  /** The position of the last '.' in name, as `str.rfind` finds it. */
  function LastDot(name: string): (r: Option<nat>)
    ensures r.Some? ==> r.value < |name|
  {
    if name == [] then None
    else if name[|name| - 1] == '.' then Some(|name| - 1)
    else LastDot(name[..|name| - 1])
  }

  lemma {:induction false} LastDotSpec(name: string)
    ensures LastDot(name).Some? ==> LastDot(name).value < |name| && name[LastDot(name).value] == '.'
    ensures LastDot(name).Some? ==> forall j :: LastDot(name).value < j < |name| ==> name[j] != '.'
    ensures LastDot(name).None? <==> '.' !in name
  {
    if name != [] && name[|name| - 1] != '.' {
      var prefix := name[..|name| - 1];
      LastDotSpec(prefix);
      assert forall j :: 0 <= j < |prefix| ==> prefix[j] == name[j];
      assert '.' in prefix <==> '.' in name;
    }
  }

  /** The file's extension: the text after the last '.', or "" when the name has none. */
  function Extension(name: string): string
  {
    match LastDot(name)
    case None => ""
    case Some(i) => name[i + 1..]
  }

  /** The extension holds no '.'; it is "" for a name without one, and otherwise the name ends
      with '.' followed by the extension. */
  lemma ExtensionSpec(name: string)
    ensures '.' !in Extension(name)
    ensures '.' !in name ==> Extension(name) == ""
    ensures '.' in name ==> var ext := Extension(name);
      |ext| < |name| && name[|name| - |ext| - 1] == '.' && name[|name| - |ext|..] == ext
  {
    LastDotSpec(name);
    var ext := Extension(name);
    if LastDot(name).Some? {
      var i := LastDot(name).value;
      assert forall j :: 0 <= j < |ext| ==> ext[j] == name[i + 1 + j];
    }
  }

  /** The size of an entry: a file's content length, a directory's total over its entries. */
  function Size(e: Entry): nat
    decreases e
  {
    match e
    case File(_, content) => |content|
    case Directory(_, entries) => SizeAll(entries)
  }

  function SizeAll(es: seq<Entry>): nat
    decreases es
  {
    if es == [] then 0 else Size(es[0]) + SizeAll(es[1..])
  }

  /** Every file beneath the entries, depth first and in list order. */
  function FilesIn(es: seq<Entry>): seq<Entry>
    decreases es
  {
    if es == [] then []
    else
      var first := match es[0]
        case File(_, _) => [es[0]]
        case Directory(_, sub) => FilesIn(sub);
      first + FilesIn(es[1..])
  }

  /** FilesIn lists files only. */
  lemma {:induction false} FilesInAreFiles(es: seq<Entry>, f: Entry)
    requires f in FilesIn(es)
    ensures f.File?
    decreases es
  {
    var first := if es[0].File? then [es[0]] else FilesIn(es[0].entries);
    assert FilesIn(es) == first + FilesIn(es[1..]);
    if f in FilesIn(es[1..]) {
      FilesInAreFiles(es[1..], f);
    } else if !es[0].File? {
      FilesInAreFiles(es[0].entries, f);
    }
  }

  /** The total content length of a list of files. */
  function ContentTotal(fs: seq<Entry>): nat
  {
    if fs == [] then 0 else (if fs[0].File? then |fs[0].content| else 0) + ContentTotal(fs[1..])
  }

  lemma {:induction false} ContentTotalAppend(a: seq<Entry>, b: seq<Entry>)
    ensures ContentTotal(a + b) == ContentTotal(a) + ContentTotal(b)
  {
    if a != [] {
      assert (a + b)[1..] == a[1..] + b;
      ContentTotalAppend(a[1..], b);
    } else {
      assert a + b == b;
    }
  }

  /** A directory's size is the total content length of all files anywhere beneath it. */
  lemma {:induction false} SizeIsFileTotal(es: seq<Entry>)
    ensures SizeAll(es) == ContentTotal(FilesIn(es))
    decreases es
  {
    if es != [] {
      SizeIsFileTotal(es[1..]);
      match es[0]
      case File(_, _) =>
        ContentTotalAppend([es[0]], FilesIn(es[1..]));
      case Directory(_, sub) =>
        SizeIsFileTotal(sub);
        ContentTotalAppend(FilesIn(sub), FilesIn(es[1..]));
    }
  }

  // ---------------------------------------------------------------- filters

  predicate NameMatches(params: SearchParams, f: Entry)
  {
    params.name.None? || f.name == params.name.value
  }

  predicate MinSizeMatches(params: SearchParams, f: Entry)
  {
    params.minSize.None? || Size(f) >= params.minSize.value
  }

  predicate MaxSizeMatches(params: SearchParams, f: Entry)
  {
    params.maxSize.None? || Size(f) <= params.maxSize.value
  }

  predicate ExtensionMatches(params: SearchParams, f: Entry)
  {
    params.extension.None? || Extension(f.name) == params.extension.value
  }

  /** A file matches a query when it meets every criterion the query sets. */
  predicate Matches(params: SearchParams, f: Entry)
  {
    NameMatches(params, f) && MinSizeMatches(params, f)
    && MaxSizeMatches(params, f) && ExtensionMatches(params, f)
  }

  /** The four filters, in the order the aggregate filter applies them. */
  datatype Filter = NameFilter | MaxSizeFilter | MinSizeFilter | ExtensionFilter

  predicate Accepts(filter: Filter, params: SearchParams, f: Entry)
  {
    match filter
    case NameFilter => NameMatches(params, f)
    case MaxSizeFilter => MaxSizeMatches(params, f)
    case MinSizeFilter => MinSizeMatches(params, f)
    case ExtensionFilter => ExtensionMatches(params, f)
  }

  /** The aggregate filter: runs the filters in turn and rejects at the first that fails. */
  method IsValid(params: SearchParams, f: Entry) returns (ok: bool)
    requires f.File?
    ensures ok <==> Matches(params, f)
  {
    var filters := [NameFilter, MaxSizeFilter, MinSizeFilter, ExtensionFilter];
    for k := 0 to |filters|
      invariant forall j :: 0 <= j < k ==> Accepts(filters[j], params, f)
    {
      if !Accepts(filters[k], params, f) {
        return false;
      }
    }
    assert Accepts(filters[0], params, f) && Accepts(filters[1], params, f);
    assert Accepts(filters[2], params, f) && Accepts(filters[3], params, f);
    return true;
  }

  /** With no criterion set, every file matches. */
  lemma EmptyQueryMatchesAll(f: Entry)
    ensures Matches(SearchParams(None, None, None, None), f)
  {
  }

  // ---------------------------------------------------------------- search

  function Children(e: Entry): seq<Entry>
  {
    if e.Directory? then e.entries else []
  }

  /** The files among the entries (not below them) that match, in list order. */
  function Select(es: seq<Entry>, params: SearchParams): seq<Entry>
  {
    if es == [] then []
    else (if es[0].File? && Matches(params, es[0]) then [es[0]] else []) + Select(es[1..], params)
  }

  /** A selected entry is exactly a matching file of the list. */
  lemma {:induction false} SelectMember(es: seq<Entry>, params: SearchParams, f: Entry)
    ensures f in Select(es, params) <==> f in es && f.File? && Matches(params, f)
  {
    if es != [] {
      SelectMember(es[1..], params, f);
      assert es == [es[0]] + es[1..];
    }
  }

  /** The directories among the entries, in list order. */
  function Subdirs(es: seq<Entry>): seq<Entry>
  {
    if es == [] then []
    else (if es[0].Directory? then [es[0]] else []) + Subdirs(es[1..])
  }

  lemma {:induction false} SelectAppend(a: seq<Entry>, b: seq<Entry>, params: SearchParams)
    ensures Select(a + b, params) == Select(a, params) + Select(b, params)
  {
    if a != [] {
      assert (a + b)[1..] == a[1..] + b;
      SelectAppend(a[1..], b, params);
    } else {
      assert a + b == b;
    }
  }

  lemma {:induction false} SubdirsAppend(a: seq<Entry>, b: seq<Entry>)
    ensures Subdirs(a + b) == Subdirs(a) + Subdirs(b)
  {
    if a != [] {
      assert (a + b)[1..] == a[1..] + b;
      SubdirsAppend(a[1..], b);
    } else {
      assert a + b == b;
    }
  }

  /** The number of entries in a tree, counting the root. */
  function Count(e: Entry): nat
    decreases e
  {
    1 + (if e.Directory? then CountAll(e.entries) else 0)
  }

  function CountAll(es: seq<Entry>): nat
    decreases es
  {
    if es == [] then 0 else Count(es[0]) + CountAll(es[1..])
  }

  lemma {:induction false} CountAllAppend(a: seq<Entry>, b: seq<Entry>)
    ensures CountAll(a + b) == CountAll(a) + CountAll(b)
  {
    if a != [] {
      assert (a + b)[1..] == a[1..] + b;
      CountAllAppend(a[1..], b);
    } else {
      assert a + b == b;
    }
  }

  lemma {:induction false} CountSubdirs(es: seq<Entry>)
    ensures CountAll(Subdirs(es)) <= CountAll(es)
  {
    if es != [] {
      CountSubdirs(es[1..]);
      CountAllAppend(if es[0].Directory? then [es[0]] else [], Subdirs(es[1..]));
    }
  }

  /** The files the breadth-first search reports for a queue of directories: the matching files
      directly in the first directory, then those of the rest of the queue with the first
      directory's subdirectories appended at the back. */
  function Bfs(queue: seq<Entry>, params: SearchParams): seq<Entry>
    decreases CountAll(queue)
  {
    if queue == [] then []
    else
      var es := Children(queue[0]);
      CountSubdirs(es);
      CountAllAppend(queue[1..], Subdirs(es));
      assert CountAll(queue) == Count(queue[0]) + CountAll(queue[1..]);
      Select(es, params) + Bfs(queue[1..] + Subdirs(es), params)
  }

  /** One round of the search, and the measure that makes the search end. */
  lemma BfsStep(queue: seq<Entry>, params: SearchParams)
    requires queue != []
    ensures Bfs(queue, params)
      == Select(Children(queue[0]), params) + Bfs(queue[1..] + Subdirs(Children(queue[0])), params)
    ensures CountAll(queue[1..] + Subdirs(Children(queue[0]))) < CountAll(queue)
  {
    var es := Children(queue[0]);
    CountSubdirs(es);
    CountAllAppend(queue[1..], Subdirs(es));
    assert CountAll(queue) == Count(queue[0]) + CountAll(queue[1..]);
  }

  /** Extending a prefix of the entries by one entry. */
  lemma PrefixStep(es: seq<Entry>, i: nat, params: SearchParams)
    requires i < |es|
    ensures Select(es[..i + 1], params)
         == Select(es[..i], params) + if es[i].File? && Matches(params, es[i]) then [es[i]] else []
    ensures Subdirs(es[..i + 1]) == Subdirs(es[..i]) + if es[i].Directory? then [es[i]] else []
  {
    assert es[..i + 1] == es[..i] + [es[i]];
    SelectAppend(es[..i], [es[i]], params);
    SubdirsAppend(es[..i], [es[i]]);
    Single(es[i], params);
  }

  /** The body of the search for one directory: each subdirectory is queued at the back and each
      matching file is collected, in list order. */
  method ScanEntries(es: seq<Entry>, params: SearchParams, queue: seq<Entry>, found: seq<Entry>)
    returns (queue': seq<Entry>, found': seq<Entry>)
    requires forall k :: 0 <= k < |queue| ==> queue[k].Directory?
    ensures queue' == queue + Subdirs(es) && found' == found + Select(es, params)
    ensures forall k :: 0 <= k < |queue'| ==> queue'[k].Directory?
  {
    queue', found' := queue, found;
    for i := 0 to |es|
      invariant queue' == queue + Subdirs(es[..i])
      invariant found' == found + Select(es[..i], params)
      invariant forall k :: 0 <= k < |queue'| ==> queue'[k].Directory?
    {
      var entry := es[i];
      PrefixStep(es, i, params);
      if entry.Directory? {
        queue' := queue' + [entry];
      } else {
        var ok := IsValid(params, entry);
        if ok {
          found' := found' + [entry];
        }
      }
    }
    assert es[..|es|] == es;
  }

  /** The search: a queue of directories starting with the root; each directory taken from the
      front has its subdirectories queued and its matching files collected. */
  method Search(root: Entry, params: SearchParams) returns (found: seq<Entry>)
    requires root.Directory?
    ensures found == Bfs([root], params)
  {
    found := [];
    var queue := [root];
    assert found + Bfs(queue, params) == Bfs([root], params);
    while queue != []
      invariant forall k :: 0 <= k < |queue| ==> queue[k].Directory?
      invariant found + Bfs(queue, params) == Bfs([root], params)
      decreases CountAll(queue)
    {
      var current := queue[0];
      SearchRound(found, queue, params);
      queue, found := ScanEntries(current.entries, params, queue[1..], found);
    }
    assert found + [] == found;
  }

  /** What one round of the search loop preserves: the files found so far followed by those
      still to be found from the queue. */
  lemma SearchRound(found: seq<Entry>, queue: seq<Entry>, params: SearchParams)
    requires queue != [] && queue[0].Directory?
    ensures found + Bfs(queue, params)
         == (found + Select(queue[0].entries, params)) + Bfs(queue[1..] + Subdirs(queue[0].entries), params)
    ensures CountAll(queue[1..] + Subdirs(queue[0].entries)) < CountAll(queue)
  {
    BfsStep(queue, params);
  }

  /** All files below the directories of a queue, depth first. */
  function FilesBelow(queue: seq<Entry>): seq<Entry>
  {
    if queue == [] then [] else FilesIn(Children(queue[0])) + FilesBelow(queue[1..])
  }

  lemma {:induction false} FilesBelowAppend(a: seq<Entry>, b: seq<Entry>)
    ensures FilesBelow(a + b) == FilesBelow(a) + FilesBelow(b)
  {
    if a != [] {
      assert (a + b)[1..] == a[1..] + b;
      FilesBelowAppend(a[1..], b);
    } else {
      assert a + b == b;
    }
  }

  /** Within one directory, the matching files at any depth are those directly in it and
      those below its subdirectories. */
  lemma {:induction false} SelectFilesIn(es: seq<Entry>, params: SearchParams)
    ensures multiset(Select(FilesIn(es), params))
         == multiset(Select(es, params)) + multiset(Select(FilesBelow(Subdirs(es)), params))
  {
    if es != [] {
      SelectFilesIn(es[1..], params);
      SelectFilesInStep(es, params);
    }
  }

  /** The step of SelectFilesIn: from the entries after the first to all of them. */
  lemma SelectFilesInStep(es: seq<Entry>, params: SearchParams)
    requires es != []
    requires multiset(Select(FilesIn(es[1..]), params))
          == multiset(Select(es[1..], params)) + multiset(Select(FilesBelow(Subdirs(es[1..])), params))
    ensures multiset(Select(FilesIn(es), params))
         == multiset(Select(es, params)) + multiset(Select(FilesBelow(Subdirs(es)), params))
  {
    var e, rest := es[0], es[1..];
    assert es == [e] + rest;
    SelectAppend([e], rest, params);
    SubdirsAppend([e], rest);
    Single(e, params);
    if e.Directory? {
      DirectoryStep(e, rest, params);
    } else {
      FileStep(e, rest, params);
    }
  }

  lemma FileStep(e: Entry, rest: seq<Entry>, params: SearchParams)
    requires e.File?
    ensures Select(FilesIn([e] + rest), params) == Select([e], params) + Select(FilesIn(rest), params)
    ensures Subdirs([e] + rest) == Subdirs(rest)
  {
    var es := [e] + rest;
    assert es[0] == e && es[1..] == rest;
    assert FilesIn(es) == [e] + FilesIn(rest);
    SelectAppend([e], FilesIn(rest), params);
    SubdirsAppend([e], rest);
    Single(e, params);
    assert Subdirs([e]) + Subdirs(rest) == [] + Subdirs(rest);
  }

  lemma DirectoryStep(e: Entry, rest: seq<Entry>, params: SearchParams)
    requires e.Directory?
    ensures Select(FilesIn([e] + rest), params) == Select(FilesIn(e.entries), params) + Select(FilesIn(rest), params)
    ensures Select([e] + rest, params) == Select(rest, params)
    ensures Select(FilesBelow(Subdirs([e] + rest)), params)
         == Select(FilesIn(e.entries), params) + Select(FilesBelow(Subdirs(rest)), params)
  {
    var es := [e] + rest;
    var first := FilesIn(e.entries);
    assert es[0] == e && es[1..] == rest;
    assert FilesIn(es) == first + FilesIn(rest);
    SelectAppend(first, FilesIn(rest), params);
    SelectAppend([e], rest, params);
    SubdirsAppend([e], rest);
    Single(e, params);
    assert Select([e], params) + Select(rest, params) == [] + Select(rest, params);
    assert FilesBelow([e]) == first by {
      assert [e][1..] == [];
      assert FilesBelow([e]) == first + FilesBelow([]);
    }
    FilesBelowAppend([e], Subdirs(rest));
    SelectAppend(first, FilesBelow(Subdirs(rest)), params);
  }

  /** The breadth-first search finds every matching file below the queued directories, each as
      often as it occurs, and nothing else. */
  lemma {:induction false} BfsFindsExactly(queue: seq<Entry>, params: SearchParams)
    ensures multiset(Bfs(queue, params)) == multiset(Select(FilesBelow(queue), params))
    decreases CountAll(queue)
  {
    if queue != [] {
      var es := Children(queue[0]);
      var next := queue[1..] + Subdirs(es);
      CountSubdirs(es);
      CountAllAppend(queue[1..], Subdirs(es));
      assert CountAll(queue) == Count(queue[0]) + CountAll(queue[1..]);
      BfsFindsExactly(next, params);
      FilesBelowAppend(queue[1..], Subdirs(es));
      SelectAppend(FilesBelow(queue[1..]), FilesBelow(Subdirs(es)), params);
      SelectAppend(FilesIn(es), FilesBelow(queue[1..]), params);
      SelectFilesIn(es, params);
    }
  }

  /** A search from a directory returns exactly the files anywhere beneath it that match the
      query (with multiplicity), and never a directory. */
  lemma SearchFindsExactly(root: Entry, params: SearchParams)
    requires root.Directory?
    ensures multiset(Bfs([root], params)) == multiset(Select(FilesIn(root.entries), params))
    ensures forall f :: f in Bfs([root], params) <==> f in FilesIn(root.entries) && Matches(params, f)
    ensures forall f :: f in Bfs([root], params) ==> f.File?
  {
    BfsFindsExactly([root], params);
    assert [root][1..] == [];
    assert FilesBelow([root]) == FilesIn(root.entries) + FilesBelow([]);
    assert FilesIn(root.entries) + [] == FilesIn(root.entries);
    var r := Bfs([root], params);
    var fs := FilesIn(root.entries);
    forall f ensures (f in r <==> f in fs && Matches(params, f)) && (f in r ==> f.File?) {
      assert f in r <==> f in multiset(r);
      assert f in Select(fs, params) <==> f in multiset(Select(fs, params));
      SelectMember(fs, params, f);
      if f in fs {
        FilesInAreFiles(root.entries, f);
      }
    }
  }

  /** Breadth-first order: the matching files directly in the root come first, in list order. */
  lemma RootFilesFirst(root: Entry, params: SearchParams)
    requires root.Directory?
    ensures Bfs([root], params)[..|Select(root.entries, params)|] == Select(root.entries, params)
  {
  }

  /** The last '.' is the one with no '.' after it. */
  lemma LastDotAt(name: string, i: nat)
    requires i < |name| && name[i] == '.'
    requires forall j :: i < j < |name| ==> name[j] != '.'
    ensures LastDot(name) == Some(i)
    ensures Extension(name) == name[i + 1..]
  {
    LastDotSpec(name);
    var r := LastDot(name);
    assert r.Some?;
    assert !(r.value < i) && !(i < r.value);
  }

  /** One step of the search on a queue holding a single directory. */
  lemma BfsSingle(d: Entry, params: SearchParams)
    ensures Bfs([d], params) == Select(Children(d), params) + Bfs(Subdirs(Children(d)), params)
  {
    assert [d][1..] == [];
    assert [] + Subdirs(Children(d)) == Subdirs(Children(d));
  }

  lemma Single(e: Entry, params: SearchParams)
    ensures Select([e], params) == if e.File? && Matches(params, e) then [e] else []
    ensures Subdirs([e]) == if e.Directory? then [e] else []
  {
    assert [e][1..] == [];
    var m := if e.File? && Matches(params, e) then [e] else [];
    assert m + [] == m;
    var d := if e.Directory? then [e] else [];
    assert d + [] == d;
  }

  /** Selecting from and filtering the directories of a two-entry list, one entry at a time. */
  lemma PairSplit(a: Entry, b: Entry, params: SearchParams)
    ensures Select([a, b], params) == Select([a], params) + Select([b], params)
    ensures Subdirs([a, b]) == Subdirs([a]) + Subdirs([b])
  {
    assert [a, b] == [a] + [b];
    SelectAppend([a], [b], params);
    SubdirsAppend([a], [b]);
  }

  /** Of the sample files, only aaa.xml meets the sample query. */
  lemma SampleMatches(params: SearchParams, xml: Entry, txt: Entry, json: Entry)
    requires params == SearchParams(Some("xml"), Some(2), Some(100), None)
    requires xml == File("aaa.xml", [97, 97, 97, 46, 120, 109, 108])
    requires txt == File("bbb.txt", [98, 98, 98, 46, 116, 120, 116])
    requires json == File("ccc.json", [99, 99, 99, 46, 106, 115, 111, 110])
    ensures Matches(params, xml) && !Matches(params, txt) && !Matches(params, json)
  {
    LastDotAt("ccc.json", 3);
    LastDotAt("bbb.txt", 3);
    LastDotAt("aaa.xml", 3);
  }

  /** The sample query: extension "xml", size between 2 and 100, over dir0 holding ccc.json and
      dir1, where dir1 holds bbb.txt and aaa.xml; each file's content is its own name. */
  lemma MainQuery()
    ensures
      var xml := File("aaa.xml", [97, 97, 97, 46, 120, 109, 108]);
      var txt := File("bbb.txt", [98, 98, 98, 46, 116, 120, 116]);
      var json := File("ccc.json", [99, 99, 99, 46, 106, 115, 111, 110]);
      var dir1 := Directory("dir1", [txt, xml]);
      var dir0 := Directory("dir0", [json, dir1]);
      Bfs([dir0], SearchParams(Some("xml"), Some(2), Some(100), None)) == [xml]
  {
    var xml := File("aaa.xml", [97, 97, 97, 46, 120, 109, 108]);
    var txt := File("bbb.txt", [98, 98, 98, 46, 116, 120, 116]);
    var json := File("ccc.json", [99, 99, 99, 46, 106, 115, 111, 110]);
    var dir1 := Directory("dir1", [txt, xml]);
    var dir0 := Directory("dir0", [json, dir1]);
    var params := SearchParams(Some("xml"), Some(2), Some(100), None);
    SampleMatches(params, xml, txt, json);
    PairSplit(json, dir1, params);
    PairSplit(txt, xml, params);
    Single(json, params);
    Single(dir1, params);
    Single(txt, params);
    Single(xml, params);
    assert Bfs([], params) == [];
    assert Select([json, dir1], params) == [] by { var none: seq<Entry> := []; assert none + none == none; }
    assert Subdirs([json, dir1]) == [dir1] by { assert [] + [dir1] == [dir1]; }
    assert Select([txt, xml], params) == [xml] by { assert [] + [xml] == [xml]; }
    assert Subdirs([txt, xml]) == [] by { var none: seq<Entry> := []; assert none + none == none; }
    BfsSingle(dir1, params);
    assert Bfs([dir1], params) == [xml] by { assert [xml] + [] == [xml]; }
    BfsSingle(dir0, params);
    assert Bfs([dir0], params) == [] + [xml];
  }
}
