/** Updates between packs, on what a pack means: a map from paths to contents. The
    producer ships changed files and a line-oriented list of deletions; the consumer
    overlays the files and deletes what the list names. */
module Delta {
  import opened Bytes
  import opened Order
  import opened Paths

  type View = map<bytes, bytes>

  const NEWLINE: byte := 10
  const HASH_SIGN: byte := 35
  const DEL_LIST: bytes := [46, 115, 112, 107, 100, 101, 108]  // ".spkdel"

  // ---- the deletion list ----
  predicate IsSpace(b: byte) { b == 32 || b == 9 || b == 13 }

  function TrimLeft(s: bytes): (r: bytes)
    ensures |r| <= |s| && (|r| == |s| ==> r == s)
    ensures forall b | b in r :: b in s
    ensures r != [] ==> !IsSpace(r[0]) && r[|r| - 1] == s[|s| - 1]
  {
    if s != [] && IsSpace(s[0]) then TrimLeft(s[1..]) else s
  }

  function TrimRight(s: bytes): (r: bytes)
    ensures |r| <= |s| && r == s[..|r|]
    ensures r != [] ==> !IsSpace(r[|r| - 1])
  {
    if s != [] && IsSpace(s[|s| - 1]) then TrimRight(s[..|s| - 1]) else s
  }

  /** The text between the first and the last character that is not a space, a tab or a CR. */
  function Trim(line: bytes): (r: bytes)
    ensures |r| <= |line| && (|r| == |line| ==> r == line)
    ensures forall b | b in r :: b in line
    ensures r != [] ==> !IsSpace(r[0]) && !IsSpace(r[|r| - 1])
  {
    TrimRight(TrimLeft(line))
  }

  lemma TrimSafe(s: bytes)
    requires s != [] && !IsSpace(s[0]) && !IsSpace(s[|s| - 1])
    ensures Trim(s) == s
  {
  }

  /** The names on the lines: blank lines and comments carry none. */
  function Names(lines: seq<bytes>): seq<bytes> {
    if lines == [] then []
    else
      var t := Trim(lines[0]);
      (if t == [] || t[0] == HASH_SIGN then [] else [t]) + Names(lines[1..])
  }

  function ParseDeletions(list: bytes): seq<bytes> {
    Names(Split(list, NEWLINE))
  }

  /** One name per line. */
  function PrintDeletions(names: seq<bytes>): bytes {
    if names == [] then [] else names[0] + [NEWLINE] + PrintDeletions(names[1..])
  }

  /** A name is printed as its bytes and a newline after those before it. */
  lemma {:induction false} PrintAppend(names: seq<bytes>, n: bytes)
    ensures PrintDeletions([]) == [] && PrintDeletions(names + [n]) == PrintDeletions(names) + n + [10]
  {
    if names == [] {
      assert [n][1..] == [];
    } else {
      assert (names + [n])[1..] == names[1..] + [n];
      PrintAppend(names[1..], n);
    }
  }

  /** Names that a line can carry unchanged. */
  predicate LineSafe(n: bytes) {
    n != [] && NEWLINE !in n && n[0] != HASH_SIGN && !IsSpace(n[0]) && !IsSpace(n[|n| - 1])
  }

  lemma {:induction false} SplitPrinted(names: seq<bytes>)
    requires forall n | n in names :: NEWLINE !in n
    ensures Split(PrintDeletions(names), NEWLINE) == names + [[]]
  {
    hide Split;
    if names == [] {
      SplitNone([], NEWLINE);
    } else {
      SplitHead(names[0], NEWLINE, PrintDeletions(names[1..]));
      SplitPrinted(names[1..]);
      assert [names[0]] + (names[1..] + [[]]) == names + [[]];
    }
  }

  lemma {:induction false} NamesConcat(a: seq<bytes>, b: seq<bytes>)
    ensures Names(a + b) == Names(a) + Names(b)
  {
    hide Trim;
    if a == [] {
      assert a + b == b;
    } else {
      assert (a + b)[1..] == a[1..] + b;
      NamesConcat(a[1..], b);
    }
  }

  lemma {:induction false} NamesOfSafe(names: seq<bytes>)
    requires forall n | n in names :: LineSafe(n)
    ensures Names(names) == names
  {
    if names != [] {
      assert LineSafe(names[0]);
      TrimSafe(names[0]);
      NamesOfSafe(names[1..]);
    }
  }

  lemma {:induction false} InNames(lines: seq<bytes>, n: bytes)
    requires n in Names(lines)
    ensures exists l :: l in lines && n == Trim(l) && n != [] && n[0] != HASH_SIGN
  {
    if n == Trim(lines[0]) && n != [] && n[0] != HASH_SIGN {
    } else {
      InNames(lines[1..], n);
      var l :| l in lines[1..] && n == Trim(l) && n != [] && n[0] != HASH_SIGN;
      assert l in lines;
    }
  }

  /** The printer and the line parser undo each other on line-safe names. */
  lemma DeletionsRoundTrip(names: seq<bytes>)
    requires forall n | n in names :: LineSafe(n)
    ensures ParseDeletions(PrintDeletions(names)) == names
  {
    SplitPrinted(names);
    NamesConcat(names, [[]]);
    assert Names([[]]) == [];
    NamesOfSafe(names);
  }

  // ---- the deletion list, in bytes ----

  /** Spaces, tabs and carriage returns. */
  ghost predicate Blank(s: bytes) {
    forall b | b in s :: b == 32 || b == 9 || b == 13
  }

  /** Text that neither begins nor ends with one of these. */
  ghost predicate Solid(n: bytes) {
    && n != []
    && n[0] != 32 && n[0] != 9 && n[0] != 13
    && n[|n| - 1] != 32 && n[|n| - 1] != 9 && n[|n| - 1] != 13
  }

  /** A list is read line by line. */
  lemma ParseConcat(a: bytes, b: bytes)
    ensures ParseDeletions(a + [10] + b) == ParseDeletions(a) + ParseDeletions(b)
  {
    hide Split, Names;
    SplitConcat(a, 10, b);
    NamesConcat(Split(a, 10), Split(b, 10));
  }

  /** A line of text with blanks around it names exactly that text, or nothing if it begins
      with "#"; a blank line names nothing. */
  lemma ParseLine(a: bytes, n: bytes, z: bytes)
    requires Blank(a) && Blank(z)
    ensures ParseDeletions(a) == []
    ensures Solid(n) && 10 !in n ==> ParseDeletions(a + n + z) == if n[0] == 35 then [] else [n]
  {
    SplitNone(a, 10);
    TrimBlank(a);
    assert Names([a]) == [];
    if Solid(n) && 10 !in n {
      var line := a + n + z;
      SplitNone(line, 10);
      TrimAround(a, n, z);
      assert Names([line]) == (if n[0] == 35 then [] else [n]) + Names([]);
    }
  }

  /** Every line is of one of these forms, so that with ParseConcat this says what is read from
      any list whatever. */
  lemma {:induction false} LineForms(line: bytes) returns (a: bytes, n: bytes, z: bytes)
    ensures line == a + n + z && Blank(a) && Blank(z) && (n == [] || Solid(n))
    ensures line != [] && !Blank([line[0]]) ==> n != []
  {
    if line == [] {
      a, n, z := [], [], [];
    } else if Blank([line[0]]) {
      a, n, z := LineForms(line[1..]);
      a := [line[0]] + a;
    } else if |line| > 1 && Blank([line[|line| - 1]]) {
      a, n, z := LineForms(line[..|line| - 1]);
      z := z + [line[|line| - 1]];
    } else {
      assert line[0] in [line[0]] && line[|line| - 1] in [line[|line| - 1]];
      a, n, z := [], line, [];
    }
  }

  lemma {:induction false} TrimBlank(a: bytes)
    requires Blank(a)
    ensures TrimLeft(a) == [] && Trim(a) == []
  {
    if a != [] {
      assert a[0] in a;
      assert Blank(a[1..]) by { assert forall b | b in a[1..] :: b in a; }
      TrimBlank(a[1..]);
    }
  }

  lemma {:induction false} TrimAround(a: bytes, n: bytes, z: bytes)
    requires Blank(a) && Blank(z) && Solid(n)
    ensures Trim(a + n + z) == n
  {
    if a != [] {
      assert a[0] in a;
      assert Blank(a[1..]) by { assert forall b | b in a[1..] :: b in a; }
      assert (a + n + z)[1..] == a[1..] + n + z;
      TrimAround(a[1..], n, z);
    } else {
      assert a + n + z == n + z;
      TrimEnd(n, z);
    }
  }

  lemma {:induction false} TrimEnd(n: bytes, z: bytes)
    requires Blank(z) && Solid(n)
    ensures TrimRight(n + z) == n
  {
    if z == [] {
      assert n + z == n;
    } else {
      var m := |z| - 1;
      assert z[m] in z;
      assert Blank(z[..m]) by { assert forall b | b in z[..m] :: b in z; }
      assert (n + z)[..|n + z| - 1] == n + z[..m];
      TrimEnd(n, z[..m]);
    }
  }

  /** What a line can carry, in bytes. */
  lemma LineSafeBytes(n: bytes)
    ensures LineSafe(n) <==> Solid(n) && 10 !in n && n[0] != 35
  {
  }

  // ---- merge and diff on views ----

  /** The paths a list of names deletes. */
  function Deleted(names: seq<bytes>): set<bytes> {
    set n | n in names :: Normalize(n)
  }

  /** `Pack::merge`: overlay every file but the control file, then delete what it lists. */
  function MergeView(target: View, source: View): View {
    var overlaid := target + (source - {DEL_LIST});
    if DEL_LIST in source then overlaid - Deleted(ParseDeletions(source[DEL_LIST])) else overlaid
  }

  function Changed(old_: View, new_: View): set<bytes> {
    set p | p in new_ && !(p in old_ && old_[p] == new_[p])
  }

  function Gone(old_: View, new_: View): set<bytes> {
    old_.Keys - new_.Keys
  }

  /** The update pack built by `sealpack diff old new update`. */
  function UpdateView(old_: View, new_: View): View {
    var shipped := map p | p in Changed(old_, new_) :: new_[p];
    var gone := Gone(old_, new_);
    if gone == {} then shipped else shipped[DEL_LIST := PrintDeletions(SortedKeys(gone))]
  }

  ghost predicate NormalKeys(v: View) {
    forall p | p in v :: IsNormal(p)
  }

  /** The names can all be carried on lines, and the control file's name is not one of
      the files that have to be shipped. */
  ghost predicate Shippable(old_: View, new_: View) {
    && (forall p | p in old_ && p !in new_ :: LineSafe(p))
    && (DEL_LIST in new_ ==> DEL_LIST in old_ && old_[DEL_LIST] == new_[DEL_LIST])
  }

  lemma DeletedNormal(names: seq<bytes>, s: set<bytes>)
    requires (forall n :: n in names <==> n in s) && forall n | n in s :: IsNormal(n)
    ensures Deleted(names) == s
  {
    forall n | n in s
      ensures n in Deleted(names)
    {
      assert n in names && Normalize(n) == n;
    }
  }

  lemma UpdateWorks(old_: View, new_: View)
    requires NormalKeys(old_) && NormalKeys(new_) && Shippable(old_, new_)
    ensures MergeView(old_, UpdateView(old_, new_)) == new_
  {
    hide IsNormal, Normalize, LineSafe, ParseDeletions, PrintDeletions, Deleted, SortedKeys;
    var gone := Gone(old_, new_);
    assert DEL_LIST !in Changed(old_, new_);
    if gone != {} {
      DeletionsRoundTrip(SortedKeys(gone));
      DeletedNormal(SortedKeys(gone), gone);
    }
    var update := UpdateView(old_, new_);
    assert update - {DEL_LIST} == map p | p in Changed(old_, new_) :: new_[p];
    MergedPaths(old_, new_, update);
  }

  lemma MergedPaths(old_: View, new_: View, update: View)
    requires DEL_LIST in new_ ==> DEL_LIST in old_ && old_[DEL_LIST] == new_[DEL_LIST]
    requires update - {DEL_LIST} == map p | p in Changed(old_, new_) :: new_[p]
    requires if DEL_LIST in update then Deleted(ParseDeletions(update[DEL_LIST])) == Gone(old_, new_)
             else Gone(old_, new_) == {}
    ensures MergeView(old_, update) == new_
  {
    hide ParseDeletions, Deleted;
    var overlaid := old_ + (update - {DEL_LIST});
    assert overlaid.Keys == old_.Keys + Changed(old_, new_);
    assert forall p | p in new_ :: p in overlaid && overlaid[p] == new_[p];
    assert overlaid - Gone(old_, new_) == new_;
  }

  // ---- the converse: nothing less than line-safe names will do ----

  lemma {:induction false} JoinSplit(s: bytes, c: byte)
    ensures Join(Split(s, c), c) == s
    decreases |s|
  {
    var j := Find(s, c, 0);
    if j < |s| {
      JoinSplit(s[j + 1..], c);
      assert s == s[..j] + [c] + s[j + 1..];
    }
  }

  lemma {:induction false} KeepShortens(segs: seq<bytes>)
    ensures |Join(Keep(segs), SLASH)| <= |Join(segs, SLASH)|
    ensures forall b | b in Join(Keep(segs), SLASH) :: b == SLASH || b in Join(segs, SLASH)
  {
    if segs != [] {
      KeepShortens(segs[1..]);
    }
  }

  lemma NormalizeShortens(path: bytes)
    ensures |Normalize(path)| <= |path|
    ensures forall b | b in Normalize(path) :: b == SLASH || b in path
  {
    JoinSplit(path, SLASH);
    KeepShortens(Split(path, SLASH));
  }

  lemma {:induction false} Longest(s: set<bytes>) returns (m: bytes)
    requires s != {}
    ensures m in s && forall x | x in s :: |x| <= |m|
  {
    m :| m in s;
    if s != {m} {
      var m' := Longest(s - {m});
      if |m'| > |m| {
        m := m';
      }
    }
  }

  /** A line that deletes d cannot itself hold a newline. */
  lemma DeletedHasNoNewline(list: bytes, d: bytes)
    requires d in Deleted(ParseDeletions(list))
    ensures NEWLINE !in d
  {
    hide Split, Trim, Normalize;
    var n :| n in ParseDeletions(list) && Normalize(n) == d;
    InNames(Split(list, NEWLINE), n);
    NormalizeShortens(n);
  }

  /** If every name on the list is deleted by the list, every name is line-safe: a name
      that trimming or parsing alters could only be deleted by a strictly longer one. */
  lemma ListedIsSafe(names: seq<bytes>)
    requires forall d | d in names :: IsNormal(d) && d in Deleted(ParseDeletions(PrintDeletions(names)))
    ensures forall d | d in names :: LineSafe(d)
  {
    hide Split, Trim, Normalize, PrintDeletions, LineSafe, Deleted, ParseDeletions;
    forall d | d in names
      ensures NEWLINE !in d
    {
      DeletedHasNoNewline(PrintDeletions(names), d);
    }
    SplitPrinted(names);
    var unsafe := set d | d in names && !LineSafe(d);
    if unsafe != {} {
      var d := Longest(unsafe);
      var l := DeletingLine(names, d);
      NormalizeShortens(Trim(l));
      assert IsNormal(l) && (!LineSafe(l) ==> l in unsafe);
      SafeOrShorter(l);
      assert false;
    }
    forall d | d in names
      ensures LineSafe(d)
    {
      assert d !in unsafe;
    }
  }

  /** The line that deletes d. */
  lemma DeletingLine(names: seq<bytes>, d: bytes) returns (l: bytes)
    requires Split(PrintDeletions(names), NEWLINE) == names + [[]]
    requires d in Deleted(ParseDeletions(PrintDeletions(names)))
    ensures l in names && Normalize(Trim(l)) == d && Trim(l) != [] && Trim(l)[0] != HASH_SIGN
  {
    hide Split, Normalize, PrintDeletions;
    var n :| n in ParseDeletions(PrintDeletions(names)) && Normalize(n) == d;
    InNames(names + [[]], n);
    l :| l in names + [[]] && n == Trim(l) && n != [] && n[0] != HASH_SIGN;
  }

  /** A name is line-safe exactly if trimming leaves it alone. */
  lemma SafeOrShorter(l: bytes)
    requires Trim(l) != [] && Trim(l)[0] != HASH_SIGN && NEWLINE !in l
    ensures if |Trim(l)| == |l| then LineSafe(l) && Trim(l) == l else !LineSafe(l)
  {
    if LineSafe(l) {
      TrimSafe(l);
    }
  }

  lemma UpdateNeedsShippable(old_: View, new_: View)
    requires NormalKeys(old_) && NormalKeys(new_)
    requires MergeView(old_, UpdateView(old_, new_)) == new_
    ensures Shippable(old_, new_)
  {
    hide IsNormal, Normalize, LineSafe, ParseDeletions, PrintDeletions, Deleted, SortedKeys;
    var gone := Gone(old_, new_);
    var update := UpdateView(old_, new_);
    var merged := MergeView(old_, update);
    assert DEL_LIST in merged ==> DEL_LIST in old_ && merged[DEL_LIST] == old_[DEL_LIST];
    if gone != {} {
      var names := SortedKeys(gone);
      forall d | d in names
        ensures IsNormal(d) && d in Deleted(ParseDeletions(PrintDeletions(names)))
      {
        assert d in gone && d in old_ && d !in merged;
      }
      ListedIsSafe(names);
    }
  }

  /** Merging the update pack into the old pack gives the new pack, exactly when every
      deleted name fits on a line unaltered and the control file's name is not among the
      files to ship. */
  lemma DiffThenMerge(old_: View, new_: View)
    requires NormalKeys(old_) && NormalKeys(new_)
    ensures MergeView(old_, UpdateView(old_, new_)) == new_ <==> Shippable(old_, new_)
  {
    hide MergeView, UpdateView, Shippable;
    if Shippable(old_, new_) {
      UpdateWorks(old_, new_);
    }
    if MergeView(old_, UpdateView(old_, new_)) == new_ {
      UpdateNeedsShippable(old_, new_);
    }
  }

  /** A pack may hold a name that no list can carry: a file "#x" that was deleted is still
      there after the update. */
  lemma UnsafeName()
    ensures var x: bytes := [HASH_SIGN, 120]; var was: View := map[x := []];
            IsNormal(x) && !LineSafe(x) && MergeView(was, UpdateView(was, map[])) != map[]
  {
    hide MergeView, UpdateView;
    var x: bytes := [HASH_SIGN, 120];
    var was: View := map[x := []];
    SplitNone(x, SLASH);
    assert Keep([x]) == [x];
    assert x in Gone(was, map[]);
    DiffThenMerge(was, map[]);
  }

  /** Merging the same source a second time changes nothing. */
  lemma MergeIdempotent(target: View, source: View)
    ensures MergeView(MergeView(target, source), source) == MergeView(target, source)
  {
  }

  /** What an update holds at each path: the new file if it is new or another, and the list of
      what is gone, if anything is. */
  lemma UpdateAt(old_: View, new_: View, p: bytes)
    ensures var update := UpdateView(old_, new_);
            if p == DEL_LIST && exists q :: q in old_ && q !in new_ then
              p in update && update[p] == PrintDeletions(SortedKeys(old_.Keys - new_.Keys))
            else
              && (p in update <==> p in new_ && !(p in old_ && old_[p] == new_[p]))
              && (p in update ==> update[p] == new_[p])
  {
    hide SortedKeys, PrintDeletions;
  }

  /** What a merge does to each path. */
  lemma MergeAt(target: View, source: View, p: bytes)
    ensures var merged := MergeView(target, source);
            if DEL_LIST in source && p in Deleted(ParseDeletions(source[DEL_LIST])) then p !in merged
            else if p != DEL_LIST && p in source then p in merged && merged[p] == source[p]
            else (p in merged <==> p in target) && (p in target ==> merged[p] == target[p])
  {
  }
}
