/** Scanning a repository: a recursive walk that skips hidden and deny-listed directories and
    keeps at most a page of files. */
module CodeScan {
  import opened Collections
  import opened Uuids

  /** What successive reads of a file return; the empty read that ends them is left off. */
  type Reads = r: seq<seq<byte>> | forall i :: 0 <= i < |r| ==> r[i] != []

  /** A directory entry. `Unstattable` is one whose listing or metadata cannot be read. */
  datatype Node =
    | Link
    | Special
    | Unstattable
    // `probe` is what the first read of at most 512 bytes returns; None is a failure to open or read.
    | File(size: nat, probe: Option<seq<byte>>, slices: Option<Reads>)
    | Dir(listable: bool, children: seq<Child>)

  datatype Child = Child(name: string, node: Node)

  /** `languageOf` detects and titles a language by a file's path. */
  datatype Limits = Limits(
    maxSize: nat, maxFiles: nat, skipDirs: seq<string>, languageOf: string -> Option<string>)

  datatype FileEntry = FileEntry(path: string, language: Option<string>, sizeBytes: nat, lineCount: nat)

  datatype ScanResult = ScanResult(files: seq<FileEntry>, totalFound: nat, truncated: bool)

  const NEWLINE: byte := 10

  // ---- lines --------------------------------------------------------------------------------

  function Newlines(content: seq<byte>): nat {
    if content == [] then 0
    else Newlines(content[..|content| - 1]) + if content[|content| - 1] == NEWLINE then 1 else 0
  }

  /** Lines of a whole file: an unterminated last line counts. */
  function CountLines(content: seq<byte>): nat {
    if content == [] then 0
    else Newlines(content) + if content[|content| - 1] == NEWLINE then 0 else 1
  }

  lemma {:induction false} NewlinesConcat(a: seq<byte>, b: seq<byte>)
    ensures Newlines(a + b) == Newlines(a) + Newlines(b)
  {
    if b == [] {
      assert a + b == a;
    } else {
      NewlinesConcat(a, b[..|b| - 1]);
      assert (a + b)[..|a + b| - 1] == a + b[..|b| - 1];
    }
  }

  lemma {:induction false} NoNewlines(line: seq<byte>)
    requires forall i :: 0 <= i < |line| ==> line[i] != 10
    ensures Newlines(line) == 0
  {
    if line != [] {
      NoNewlines(line[..|line| - 1]);
    }
  }

  /** Line by line: a line with its newline counts one, and so does what follows the last newline,
      if anything does. */
  lemma CountsLines(line: seq<byte>, rest: seq<byte>)
    requires forall i :: 0 <= i < |line| ==> line[i] != 10
    ensures CountLines(line + [10] + rest) == 1 + CountLines(rest)
    ensures CountLines(line) == if line == [] then 0 else 1
  {
    NoNewlines(line);
    NewlinesSnoc(line, 10);
    NewlinesConcat(line + [10], rest);
    if rest != [] {
      assert (line + [10] + rest)[|line| + 1 + |rest| - 1] == rest[|rest| - 1];
    }
  }

  lemma NewlinesSnoc(content: seq<byte>, b: byte)
    ensures Newlines(content + [b]) == Newlines(content) + if b == NEWLINE then 1 else 0
  {
    assert (content + [b])[..|content|] == content;
  }

  /** However the reads slice the file, the streamed count is the count of the whole. */
  method CountLinesStreaming(slices: Reads) returns (lines: nat)
    ensures lines == CountLines(Flatten(slices))
  {
    var newlines: nat := 0;
    var lastByte: Option<byte> := None;
    for i := 0 to |slices|
      invariant newlines == Newlines(Flatten(slices[..i]))
      invariant lastByte == if i == 0 then None else Some(slices[i - 1][|slices[i - 1]| - 1])
      invariant i > 0 ==> Flatten(slices[..i]) != []
      invariant i > 0 ==> Flatten(slices[..i])[|Flatten(slices[..i])| - 1] == lastByte.value
    {
      var buf := slices[i];
      ghost var seen := Flatten(slices[..i]);
      assert slices[..i + 1] == slices[..i] + [buf];
      FlattenAppend(slices[..i], buf);
      assert seen + buf[..0] == seen;
      for k := 0 to |buf|
        invariant newlines == Newlines(seen + buf[..k])
      {
        NewlinesSnoc(seen + buf[..k], buf[k]);
        assert seen + buf[..k + 1] == seen + buf[..k] + [buf[k]];
        if buf[k] == NEWLINE {
          newlines := newlines + 1;
        }
      }
      assert buf[..|buf|] == buf;
      lastByte := Some(buf[|buf| - 1]);
    }
    assert slices[..|slices|] == slices;
    match lastByte {
      case None => lines := 0;
      case Some(b) => lines := if b == NEWLINE then newlines else newlines + 1;
    }
  }

  // ---- what is found --------------------------------------------------------------------------

  /** A zero byte among the first 512. */
  predicate IsBinary(data: seq<byte>) {
    0 in if |data| > 512 then data[..512] else data
  }

  /** A readable file that is not too large, with no zero byte among the first 512 of its probe. */
  ghost predicate Eligible(n: Node, limits: Limits) {
    && n.File? && n.size <= limits.maxSize && n.probe.Some? && n.slices.Some?
    && forall i :: 0 <= i < |n.probe.value| && i < 512 ==> n.probe.value[i] != 0
  }

  predicate Skipped(name: string, limits: Limits) {
    (name != "" && name[0] == '.') || name in limits.skipDirs
  }

  /** A directory whose name neither begins with a dot nor is on the deny list. */
  ghost predicate Entered(c: Child, limits: Limits) {
    c.node.Dir? && !("." <= c.name) && forall i :: 0 <= i < |limits.skipDirs| ==> limits.skipDirs[i] != c.name
  }

  function Entry(path: string, n: Node, limits: Limits): FileEntry
    requires n.File? && n.slices.Some?
  {
    FileEntry(path, limits.languageOf(path), n.size, CountLines(Flatten(n.slices.value)))
  }

  /** All eligible files below a directory, as a walk without a cap would list them. */
  ghost function Entries(path: string, children: seq<Child>, limits: Limits): seq<FileEntry>
    decreases children
  {
    if children == [] then []
    else
      var c := children[|children| - 1];
      Entries(path, children[..|children| - 1], limits) +
      if Entered(c, limits) then Entries(path + "/" + c.name, c.node.children, limits)
      else if Eligible(c.node, limits) then [Entry(path + "/" + c.name, c.node, limits)]
      else []
  }

  /** No directory that is entered, and no entry that is looked at, gives an error. */
  ghost predicate Clean(children: seq<Child>, limits: Limits) {
    forall i :: 0 <= i < |children| ==>
      && !children[i].node.Unstattable?
      && (Entered(children[i], limits) ==> children[i].node.listable && Clean(children[i].node.children, limits))
  }

  function Capped<T>(s: seq<T>, cap: nat): seq<T> {
    if |s| <= cap then s else s[..cap]
  }

  lemma EntriesOfNone(path: string, limits: Limits)
    ensures Entries(path, [], limits) == []
  {
  }

  lemma EntriesNext(path: string, children: seq<Child>, i: nat, limits: Limits)
    requires i < |children|
    ensures Entries(path, children[..i + 1], limits) ==
      Entries(path, children[..i], limits) + EntriesOf(path, children[i], limits)
  {
    assert children[..i + 1][..i] == children[..i];
  }

  lemma CappedSnoc<T>(s: seq<T>, x: T, cap: nat)
    ensures Capped(s + [x], cap) == if |Capped(s, cap)| < cap then Capped(s, cap) + [x] else Capped(s, cap)
  {
  }

  lemma CleanByChild(children: seq<Child>, limits: Limits)
    ensures Clean(children, limits) <==> forall k :: 0 <= k < |children| ==> CleanChild(children[k], limits)
  {
  }

  ghost predicate CleanChild(c: Child, limits: Limits) {
    !c.node.Unstattable? && (Entered(c, limits) ==> c.node.listable && Clean(c.node.children, limits))
  }

  /** What one child adds to the walk. */
  ghost function EntriesOf(path: string, c: Child, limits: Limits): seq<FileEntry> {
    if Entered(c, limits) then Entries(path + "/" + c.name, c.node.children, limits)
    else if Eligible(c.node, limits) then [Entry(path + "/" + c.name, c.node, limits)]
    else []
  }

  /** One directory entry: what the visitor's loop does with it. */
  method VisitChild(c: Child, path: string, limits: Limits, found: seq<FileEntry>, total: nat,
                    ghost before: seq<FileEntry>)
    returns (ok: bool, found': seq<FileEntry>, total': nat)
    requires found == Capped(before, limits.maxFiles) && total == |before|
    ensures ok <==> CleanChild(c, limits)
    ensures ok ==> found' == Capped(before + EntriesOf(path, c, limits), limits.maxFiles)
    ensures ok ==> total' == |before + EntriesOf(path, c, limits)|
    decreases c.node, 1
  {
    hide Clean, Entries, CountLines, Flatten;
    ok, found', total' := true, found, total;
    assert before + [] == before;
    var entryPath := path + "/" + c.name;
    if c.node.Unstattable? {
      ok := false;
    } else if c.node.Dir? {
      if !Skipped(c.name, limits) {
        ok, found', total' := VisitDir(c.node, entryPath, limits, found, total, before);
      }
    } else if c.node.File? && c.node.size <= limits.maxSize && c.node.probe.Some? && !IsBinary(c.node.probe.value)
              && c.node.slices.Some? {
      var lineCount := CountLinesStreaming(c.node.slices.value);
      total' := total + 1;
      var entry := FileEntry(entryPath, limits.languageOf(entryPath), c.node.size, lineCount);
      CappedSnoc(before, entry, limits.maxFiles);
      if |found| < limits.maxFiles {
        found' := found + [entry];
      }
    }
  }

  /** The recursive visitor, appending to what was found `before` this directory. */
  method VisitDir(dir: Node, path: string, limits: Limits, found: seq<FileEntry>, total: nat,
                  ghost before: seq<FileEntry>)
    returns (ok: bool, found': seq<FileEntry>, total': nat)
    requires dir.Dir? && found == Capped(before, limits.maxFiles) && total == |before|
    ensures ok <==> dir.listable && Clean(dir.children, limits)
    ensures ok ==> found' == Capped(before + Entries(path, dir.children, limits), limits.maxFiles)
    ensures ok ==> total' == |before + Entries(path, dir.children, limits)|
    decreases dir, 0
  {
    hide Clean, CleanChild, Entries, EntriesOf, Capped;
    found', total' := found, total;
    if !dir.listable {
      return false, found', total';
    }
    var children := dir.children;
    CleanByChild(children, limits);
    EntriesOfNone(path, limits);
    ghost var all := before;
    assert children[..0] == [] && before + [] == before;
    for i := 0 to |children|
      invariant forall k :: 0 <= k < i ==> CleanChild(children[k], limits)
      invariant all == before + Entries(path, children[..i], limits)
      invariant found' == Capped(all, limits.maxFiles) && total' == |all|
    {
      EntriesNext(path, children, i, limits);
      ok, found', total' := VisitChild(children[i], path, limits, found', total', all);
      if !ok {
        return;
      }
      all := all + EntriesOf(path, children[i], limits);
    }
    assert children[..|children|] == children;
    ok := true;
  }

  /** The first page of the eligible files, the count of all of them, and whether some were left out. */
  method ScanRepo(root: Node, path: string, limits: Limits) returns (r: Option<ScanResult>)
    ensures r.None? <==> !(root.Dir? && root.listable && Clean(root.children, limits))
    ensures r.Some? ==> var all := Entries(path, root.children, limits);
      && |r.value.files| == (if |all| < limits.maxFiles then |all| else limits.maxFiles)
      && r.value.files == all[..|r.value.files|]
      && r.value.totalFound == |all|
      && (r.value.truncated <==> |r.value.files| < |all|)
  {
    if !root.Dir? {
      return None;
    }
    var ok, found, total := VisitDir(root, path, limits, [], 0, []);
    if !ok {
      return None;
    }
    r := Some(ScanResult(found, total, total > limits.maxFiles));
    assert [] + Entries(path, root.children, limits) == Entries(path, root.children, limits);
  }

  // ---- which files those are ------------------------------------------------------------------

  /** Following child numbers from a directory leads, through directories that are entered only,
      to an eligible file. */
  ghost predicate Reaches(children: seq<Child>, position: seq<nat>, limits: Limits)
    decreases position
  {
    && position != [] && position[0] < |children|
    && var c := children[position[0]];
       if |position| == 1 then Eligible(c.node, limits)
       else Entered(c, limits) && Reaches(c.node.children, position[1..], limits)
  }

  ghost function EntryAt(path: string, children: seq<Child>, position: seq<nat>, limits: Limits): FileEntry
    requires Reaches(children, position, limits)
    decreases position
  {
    var c := children[position[0]];
    if |position| == 1 then Entry(path + "/" + c.name, c.node, limits)
    else EntryAt(path + "/" + c.name, c.node.children, position[1..], limits)
  }

  /** The order in which a depth-first walk comes to two positions. */
  predicate Before(a: seq<nat>, b: seq<nat>) {
    a != [] && b != [] && (a[0] < b[0] || (a[0] == b[0] && Before(a[1..], b[1..])))
  }

  /** `positions` lists what the entries are, entry by entry, in walking order. */
  ghost predicate Shows(positions: seq<seq<nat>>, entries: seq<FileEntry>, path: string, children: seq<Child>,
                        limits: Limits) {
    && |positions| == |entries|
    && (forall i :: 0 <= i < |positions| ==> Reaches(children, positions[i], limits))
    && (forall i :: 0 <= i < |positions| ==> entries[i] == EntryAt(path, children, positions[i], limits))
    && (forall i, j :: 0 <= i < j < |positions| ==> Before(positions[i], positions[j]))
  }

  /** ... and no position that leads to an eligible file is missing. */
  ghost predicate Locates(positions: seq<seq<nat>>, path: string, children: seq<Child>, limits: Limits) {
    && Shows(positions, Entries(path, children, limits), path, children, limits)
    && forall position :: Reaches(children, position, limits) ==> position in positions
  }

  lemma ShowsConcat(a: seq<seq<nat>>, b: seq<seq<nat>>, x: seq<FileEntry>, y: seq<FileEntry>,
                    path: string, children: seq<Child>, limits: Limits)
    requires Shows(a, x, path, children, limits) && Shows(b, y, path, children, limits)
    requires forall i, j :: 0 <= i < |a| && 0 <= j < |b| ==> Before(a[i], b[j])
    ensures Shows(a + b, x + y, path, children, limits)
  {
    hide Reaches, EntryAt, Before;
  }

  lemma ReachesMore(children: seq<Child>, more: seq<Child>, path: string, position: seq<nat>, limits: Limits)
    requires position != [] && position[0] < |children|
    ensures Reaches(children + more, position, limits) <==> Reaches(children, position, limits)
    ensures Reaches(children, position, limits) ==>
      EntryAt(path, children + more, position, limits) == EntryAt(path, children, position, limits)
  {
    assert (children + more)[position[0]] == children[position[0]];
  }

  /** What the last child of a directory adds. */
  ghost function Added(children: seq<Child>, below: seq<seq<nat>>, limits: Limits): seq<seq<nat>>
    requires children != []
  {
    var n := |children| - 1;
    if Entered(children[n], limits) then seq(|below|, i requires 0 <= i < |below| => [n] + below[i])
    else if Eligible(children[n].node, limits) then [[n]]
    else []
  }

  lemma LastReaches(path: string, children: seq<Child>, position: seq<nat>, limits: Limits)
    requires children != [] && position != [] && position[0] == |children| - 1
    ensures var c := children[|children| - 1];
      && (Reaches(children, position, limits) <==>
            if |position| == 1 then Eligible(c.node, limits)
            else Entered(c, limits) && Reaches(c.node.children, position[1..], limits))
      && (Reaches(children, position, limits) ==>
            EntryAt(path, children, position, limits) ==
              if |position| == 1 then Entry(path + "/" + c.name, c.node, limits)
              else EntryAt(path + "/" + c.name, c.node.children, position[1..], limits))
  {
  }

  lemma InitShows(path: string, children: seq<Child>, init: seq<seq<nat>>, limits: Limits)
    requires children != [] && Locates(init, path, children[..|children| - 1], limits)
    ensures Shows(init, Entries(path, children[..|children| - 1], limits), path, children, limits)
    ensures forall i :: 0 <= i < |init| ==> init[i] != [] && init[i][0] < |children| - 1
    ensures forall position ::
      Reaches(children, position, limits) && position != [] && position[0] < |children| - 1 ==> position in init
  {
    var n := |children| - 1;
    var before := children[..n];
    assert children == before + [children[n]];
    hide Entries;
    forall i | 0 <= i < |init|
      ensures Reaches(children, init[i], limits)
      ensures EntryAt(path, children, init[i], limits) == EntryAt(path, before, init[i], limits)
      ensures init[i][0] < n
    {
      assert Reaches(before, init[i], limits);
      ReachesMore(before, [children[n]], path, init[i], limits);
    }
    forall position | Reaches(children, position, limits) && position[0] < n
      ensures position in init
    {
      ReachesMore(before, [children[n]], path, position, limits);
    }
  }

  lemma AddedShows(path: string, children: seq<Child>, below: seq<seq<nat>>, limits: Limits)
    requires children != []
    requires var c := children[|children| - 1];
      Entered(c, limits) ==> Locates(below, path + "/" + c.name, c.node.children, limits)
    ensures var added := Added(children, below, limits);
      && Shows(added, EntriesOf(path, children[|children| - 1], limits), path, children, limits)
      && (forall i :: 0 <= i < |added| ==> added[i] != [] && added[i][0] == |children| - 1)
      && (forall position ::
            Reaches(children, position, limits) && position != [] && position[0] == |children| - 1 ==>
              position in added)
  {
    hide Entries, Reaches, EntryAt, Skipped;
    var n := |children| - 1;
    var added := Added(children, below, limits);
    forall i | 0 <= i < |added|
      ensures added[i] != [] && added[i][0] == n && Reaches(children, added[i], limits)
      ensures EntryAt(path, children, added[i], limits) == EntriesOf(path, children[n], limits)[i]
    {
      LastReaches(path, children, added[i], limits);
      if Entered(children[n], limits) {
        assert added[i][1..] == below[i];
        NotEmpty(children[n].node.children, below[i], limits);
      }
    }
    forall i, j | 0 <= i < j < |added|
      ensures Before(added[i], added[j])
    {
      assert added[i][1..] == below[i] && added[j][1..] == below[j];
    }
    forall position | Reaches(children, position, limits) && position != [] && position[0] == n
      ensures position in added
    {
      LastReaches(path, children, position, limits);
      if |position| > 1 {
        assert position[1..] in below;
        var k :| 0 <= k < |below| && below[k] == position[1..];
        assert position == [n] + below[k] == added[k];
      } else {
        assert position == [n] == added[0];
      }
    }
  }

  lemma NotEmpty(children: seq<Child>, position: seq<nat>, limits: Limits)
    ensures Reaches(children, position, limits) ==> position != [] && position[0] < |children|
  {
  }

  lemma AddedLocates(path: string, children: seq<Child>, init: seq<seq<nat>>, below: seq<seq<nat>>, limits: Limits)
    requires children != []
    requires Locates(init, path, children[..|children| - 1], limits)
    requires var c := children[|children| - 1];
      Entered(c, limits) ==> Locates(below, path + "/" + c.name, c.node.children, limits)
    ensures Locates(init + Added(children, below, limits), path, children, limits)
  {
    var n := |children| - 1;
    var added := Added(children, below, limits);
    InitShows(path, children, init, limits);
    AddedShows(path, children, below, limits);
    EntriesNext(path, children, n, limits);
    assert children[..n + 1] == children;
    hide Entries, Reaches, EntryAt, EntriesOf, Added, Shows, Skipped;
    forall i, j | 0 <= i < |init| && 0 <= j < |added|
      ensures Before(init[i], added[j])
    {
      assert init[i][0] < n == added[j][0];
    }
    ShowsConcat(init, added, Entries(path, children[..n], limits), EntriesOf(path, children[n], limits),
                path, children, limits);
    forall position | Reaches(children, position, limits)
      ensures position in init + added
    {
      NotEmpty(children, position, limits);
    }
  }

  /** The scan lists exactly the eligible files that can be reached without entering a hidden or
      deny-listed directory, each position once, in walking order. */
  lemma {:induction false} EntriesAreReached(path: string, children: seq<Child>, limits: Limits)
    returns (positions: seq<seq<nat>>)
    ensures Locates(positions, path, children, limits)
    decreases children
  {
    positions := [];
    if children != [] {
      var n := |children| - 1;
      var c := children[n];
      var init := EntriesAreReached(path, children[..n], limits);
      var below := [];
      if Entered(c, limits) {
        below := EntriesAreReached(path + "/" + c.name, c.node.children, limits);
      }
      AddedLocates(path, children, init, below, limits);
      positions := init + Added(children, below, limits);
    }
  }
}
