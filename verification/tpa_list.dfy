/** The trusted-platform-assembly (TPA) list builder, AddToTpaList.

    The builder walks one directory listing four times, once per file-name
    extension in priority order, and appends `dir + separator + name +
    delimiter` for each admitted file whose name ends in that pass's
    extension, unless the name minus that extension was already recorded.
    The recorded set persists across the four passes.  Both platform
    variants share this algorithm; they differ in the separator, the
    delimiter and the way an entry is recognised as a file.
*/
module TpaList {
  import opened Wrappers

  /** Outcome of stat(2) on an entry whose type readdir did not settle. */
  datatype StatResult = StatFailed | Stat(isRegular: bool)

  /** What the directory enumeration says about an entry. */
  datatype EntryKind =
    | Regular                          // DT_REG
    | Directory                        // DT_DIR; FILE_ATTRIBUTE_DIRECTORY on Windows
    | LinkOrUnknown(stat: StatResult)  // DT_LNK or DT_UNKNOWN, settled by stat(2)
    | OtherKind                        // fifos, sockets, devices

  datatype DirEntry = DirEntry(name: string, kind: EntryKind)

  datatype Platform = Posix | Windows

  /** Extensions in the order the passes run: native images first. */
  const Extensions: seq<string> := [".ni.dll", ".dll", ".ni.exe", ".exe"]

  function Separator(p: Platform): string {
    if p.Posix? then "/" else "\\"
  }

  function Delimiter(p: Platform): string {
    if p.Posix? then ":" else ";"
  }

  /** Whether an entry is considered at all.  POSIX keeps DT_REG entries and
      links or unknown entries that stat(2) reports as regular files; Windows
      only rejects entries carrying the directory attribute. */
  predicate Admits(p: Platform, e: DirEntry) {
    match p
    case Windows => !e.kind.Directory?
    case Posix =>
      match e.kind
      case Regular => true
      case LinkOrUnknown(s) => s.Stat? && s.isRegular
      case Directory => false
      case OtherKind => false
  }

  /** The extension test, with the position computed as a signed int: a name
      no longer than the extension gives a position <= 0 and is rejected. */
  predicate HasExtension(name: string, ext: string) {
    var extPos := |name| - |ext|;
    extPos > 0 && name[extPos..] == ext
  }

  /** The de-duplication key: the name without the extension matched in the
      current pass. */
  function StripExtension(name: string, ext: string): (key: string)
    requires HasExtension(name, ext)
    ensures key + ext == name && |key| > 0
  {
    var key := name[..|name| - |ext|];
    assert key + ext == name[..|name| - |ext|] + name[|name| - |ext|..];
    key
  }

  /** The text appended for one accepted file. */
  function Chunk(p: Platform, dir: string, name: string): string {
    dir + Separator(p) + name + Delimiter(p)
  }

  /** The list being built and the set of keys recorded so far. */
  datatype ScanState = ScanState(tpa: string, added: set<string>)

  /** One iteration of the inner loop: one entry, one extension. */
  function Visit(p: Platform, dir: string, ext: string, e: DirEntry, st: ScanState): (r: ScanState)
    ensures st.tpa <= r.tpa && st.added <= r.added
  {
    if !Admits(p, e) || !HasExtension(e.name, ext) then st
    else
      var key := StripExtension(e.name, ext);
      if key in st.added then st
      else ScanState(st.tpa + Chunk(p, dir, e.name), st.added + {key})
  }

  /** One pass: the listing in enumeration order, one extension. */
  function ScanPass(p: Platform, dir: string, ext: string, entries: seq<DirEntry>, st: ScanState): (r: ScanState)
    ensures st.tpa <= r.tpa && st.added <= r.added
    decreases |entries|
  {
    if entries == [] then st
    else
      var last := |entries| - 1;
      Visit(p, dir, ext, entries[last], ScanPass(p, dir, ext, entries[..last], st))
  }

  /** The passes, one per extension, in the order given. */
  function ScanPasses(p: Platform, dir: string, exts: seq<string>, entries: seq<DirEntry>, st: ScanState): (r: ScanState)
    ensures st.tpa <= r.tpa && st.added <= r.added
    decreases |exts|
  {
    if exts == [] then st
    else
      var last := |exts| - 1;
      ScanPass(p, dir, exts[last], entries, ScanPasses(p, dir, exts[..last], entries, st))
  }

  /** AddToTpaList: `listing` is None when the directory cannot be opened,
      otherwise the entries the enumeration yields (the same ones on every
      pass).  The result is the TPA list after the call. */
  function AddToTpaList(p: Platform, dir: string, listing: Option<seq<DirEntry>>, tpa: string): (r: string)
    ensures listing.None? ==> r == tpa
    ensures tpa <= r
  {
    match listing
    case None => tpa
    case Some(entries) => ScanPasses(p, dir, Extensions, entries, ScanState(tpa, {})).tpa
  }

  // ---------------------------------------------------------------------
  // Reference definition: every (pass, entry) pair that matches, in pass-
  // major order, and the first one of each key among them.
  // ---------------------------------------------------------------------

  /** A file that matches the extension of pass `pass`; `index` is its
      position in the listing. */
  datatype Match = Match(pass: nat, index: nat, name: string, key: string)

  /** The matches of one pass, in listing order. */
  function PassMatches(p: Platform, k: nat, ext: string, entries: seq<DirEntry>): seq<Match>
    decreases |entries|
  {
    if entries == [] then []
    else
      var i := |entries| - 1;
      var e := entries[i];
      PassMatches(p, k, ext, entries[..i])
        + (if Admits(p, e) && HasExtension(e.name, ext) then [Match(k, i, e.name, StripExtension(e.name, ext))] else [])
  }

  /** The matches of every pass, earlier passes first. */
  function AllMatches(p: Platform, exts: seq<string>, entries: seq<DirEntry>): seq<Match>
    decreases |exts|
  {
    if exts == [] then []
    else
      var k := |exts| - 1;
      AllMatches(p, exts[..k], entries) + PassMatches(p, k, exts[k], entries)
  }

  function Keys(ms: seq<Match>): set<string>
    decreases |ms|
  {
    if ms == [] then {} else Keys(ms[..|ms| - 1]) + {ms[|ms| - 1].key}
  }

  /** The matches whose key occurs neither in `seen` nor in any earlier match. */
  function FirstByKey(seen: set<string>, ms: seq<Match>): seq<Match>
    decreases |ms|
  {
    if ms == [] then []
    else
      var prefix := ms[..|ms| - 1];
      var m := ms[|ms| - 1];
      FirstByKey(seen, prefix) + (if m.key in seen + Keys(prefix) then [] else [m])
  }

  function Render(p: Platform, dir: string, ms: seq<Match>): string
    decreases |ms|
  {
    if ms == [] then "" else Render(p, dir, ms[..|ms| - 1]) + Chunk(p, dir, ms[|ms| - 1].name)
  }

  /** The files the builder accepts, in the order it appends them. */
  function Accepted(p: Platform, entries: seq<DirEntry>): seq<Match> {
    FirstByKey({}, AllMatches(p, Extensions, entries))
  }

  /** (pass, index) lexicographic order: the order the loops visit pairs. */
  predicate Before(a: Match, b: Match) {
    a.pass < b.pass || (a.pass == b.pass && a.index < b.index)
  }

  predicate Ordered(ms: seq<Match>) {
    forall i, j :: 0 <= i < j < |ms| ==> Before(ms[i], ms[j])
  }

  /** `m` is entry `m.index` of the listing, admitted, and carries the
      extension of pass `m.pass`, with `m.key` the name without it. */
  predicate Describes(p: Platform, exts: seq<string>, entries: seq<DirEntry>, m: Match) {
    && m.pass < |exts|
    && m.index < |entries|
    && entries[m.index].name == m.name
    && Admits(p, entries[m.index])
    && HasExtension(m.name, exts[m.pass])
    && m.key == StripExtension(m.name, exts[m.pass])
  }

  // ---------------------------------------------------------------------
  // Algebra of the reference definition
  // ---------------------------------------------------------------------

  lemma AppendAssoc<T>(a: seq<T>, b: seq<T>, c: seq<T>)
    ensures a + b + c == a + (b + c)
  {
  }

  lemma KeysSnoc(ms: seq<Match>, m: Match)
    ensures Keys(ms + [m]) == Keys(ms) + {m.key}
  {
    assert (ms + [m])[..|ms|] == ms;
  }

  lemma RenderSnoc(p: Platform, dir: string, ms: seq<Match>, m: Match)
    ensures Render(p, dir, ms + [m]) == Render(p, dir, ms) + Chunk(p, dir, m.name)
  {
    assert (ms + [m])[..|ms|] == ms;
  }

  lemma FirstByKeySnoc(seen: set<string>, ms: seq<Match>, m: Match)
    ensures FirstByKey(seen, ms + [m]) == FirstByKey(seen, ms) + (if m.key in seen + Keys(ms) then [] else [m])
  {
    assert (ms + [m])[..|ms|] == ms;
  }

  lemma {:induction false} KeysAppend(a: seq<Match>, b: seq<Match>)
    ensures Keys(a + b) == Keys(a) + Keys(b)
    decreases |b|
  {
    if b == [] {
      assert a + b == a;
    } else {
      var b', m := b[..|b| - 1], b[|b| - 1];
      assert a + b == (a + b') + [m] && b == b' + [m];
      KeysAppend(a, b');
      KeysSnoc(a + b', m);
      KeysSnoc(b', m);
    }
  }

  lemma {:induction false} KeysMembers(ms: seq<Match>, k: string)
    ensures k in Keys(ms) <==> exists i :: 0 <= i < |ms| && ms[i].key == k
    decreases |ms|
  {
    if ms != [] {
      var prefix := ms[..|ms| - 1];
      KeysMembers(prefix, k);
      if k in Keys(prefix) {
        var i :| 0 <= i < |prefix| && prefix[i].key == k;
        assert ms[i].key == k;
      }
      if exists i :: 0 <= i < |ms| && ms[i].key == k {
        var i :| 0 <= i < |ms| && ms[i].key == k;
        if i < |prefix| {
          assert prefix[i].key == k;
        }
      }
    }
  }

  lemma {:induction false} RenderAppend(p: Platform, dir: string, a: seq<Match>, b: seq<Match>)
    ensures Render(p, dir, a + b) == Render(p, dir, a) + Render(p, dir, b)
    decreases |b|
  {
    if b == [] {
      assert a + b == a;
    } else {
      var b', m := b[..|b| - 1], b[|b| - 1];
      assert a + b == (a + b') + [m] && b == b' + [m];
      RenderAppend(p, dir, a, b');
      RenderSnoc(p, dir, a + b', m);
      RenderSnoc(p, dir, b', m);
    }
  }

  lemma {:induction false} FirstByKeyAppend(seen: set<string>, a: seq<Match>, b: seq<Match>)
    ensures FirstByKey(seen, a + b) == FirstByKey(seen, a) + FirstByKey(seen + Keys(a), b)
    decreases |b|
  {
    if b == [] {
      assert a + b == a;
    } else {
      var b', m := b[..|b| - 1], b[|b| - 1];
      assert a + b == (a + b') + [m] && b == b' + [m];
      FirstByKeyAppend(seen, a, b');
      FirstByKeySnoc(seen, a + b', m);
      FirstByKeySnoc(seen + Keys(a), b', m);
      KeysAppend(a, b');
    }
  }

  // ---------------------------------------------------------------------
  // The loops compute the reference definition
  // ---------------------------------------------------------------------

  /** The matches of a pass grow by at most the last entry. */
  lemma PassMatchesSnoc(p: Platform, k: nat, ext: string, entries: seq<DirEntry>)
    requires entries != []
    ensures var i := |entries| - 1; var e := entries[i];
      PassMatches(p, k, ext, entries)
        == PassMatches(p, k, ext, entries[..i])
           + (if Admits(p, e) && HasExtension(e.name, ext) then [Match(k, i, e.name, StripExtension(e.name, ext))] else [])
  {
  }

  /** One Visit is one step of FirstByKey. */
  lemma VisitStep(p: Platform, dir: string, k: nat, ext: string, entries: seq<DirEntry>, st: ScanState, pre: seq<Match>)
    requires entries != []
    requires pre == PassMatches(p, k, ext, entries[..|entries| - 1])
    ensures var e := entries[|entries| - 1];
      Visit(p, dir, ext, e, ScanState(st.tpa + Render(p, dir, FirstByKey(st.added, pre)), st.added + Keys(pre)))
        == ScanState(st.tpa + Render(p, dir, FirstByKey(st.added, PassMatches(p, k, ext, entries))),
                     st.added + Keys(PassMatches(p, k, ext, entries)))
  {
    var i := |entries| - 1;
    var e := entries[i];
    PassMatchesSnoc(p, k, ext, entries);
    if Admits(p, e) && HasExtension(e.name, ext) {
      VisitMatched(p, dir, k, i, e, ext, st, pre);
    } else {
      assert pre + [] == pre;
    }
  }

  lemma VisitMatched(p: Platform, dir: string, k: nat, i: nat, e: DirEntry, ext: string, st: ScanState, pre: seq<Match>)
    requires Admits(p, e) && HasExtension(e.name, ext)
    ensures var m := Match(k, i, e.name, StripExtension(e.name, ext));
      Visit(p, dir, ext, e, ScanState(st.tpa + Render(p, dir, FirstByKey(st.added, pre)), st.added + Keys(pre)))
        == ScanState(st.tpa + Render(p, dir, FirstByKey(st.added, pre + [m])), st.added + Keys(pre + [m]))
  {
    var m := Match(k, i, e.name, StripExtension(e.name, ext));
    var before := ScanState(st.tpa + Render(p, dir, FirstByKey(st.added, pre)), st.added + Keys(pre));
    if m.key in before.added {
      assert Visit(p, dir, ext, e, before) == before;
      MatchedDuplicate(p, dir, st, pre, m);
    } else {
      assert Visit(p, dir, ext, e, before) == ScanState(before.tpa + Chunk(p, dir, m.name), before.added + {m.key});
      MatchedFresh(p, dir, st, pre, m);
    }
  }

  lemma MatchedDuplicate(p: Platform, dir: string, st: ScanState, pre: seq<Match>, m: Match)
    requires m.key in st.added + Keys(pre)
    ensures FirstByKey(st.added, pre + [m]) == FirstByKey(st.added, pre)
    ensures st.added + Keys(pre + [m]) == st.added + Keys(pre)
  {
    FirstByKeySnoc(st.added, pre, m);
    assert FirstByKey(st.added, pre) + [] == FirstByKey(st.added, pre);
    KeysSnoc(pre, m);
  }

  lemma MatchedFresh(p: Platform, dir: string, st: ScanState, pre: seq<Match>, m: Match)
    requires m.key !in st.added + Keys(pre)
    ensures st.tpa + Render(p, dir, FirstByKey(st.added, pre + [m]))
         == st.tpa + Render(p, dir, FirstByKey(st.added, pre)) + Chunk(p, dir, m.name)
    ensures st.added + Keys(pre + [m]) == st.added + Keys(pre) + {m.key}
  {
    var fb := FirstByKey(st.added, pre);
    var r := Render(p, dir, fb);
    assert Render(p, dir, FirstByKey(st.added, pre + [m])) == r + Chunk(p, dir, m.name) by {
      FirstByKeySnoc(st.added, pre, m);
      RenderSnoc(p, dir, fb, m);
    }
    AppendAssoc(st.tpa, r, Chunk(p, dir, m.name));
    KeysSnoc(pre, m);
  }

  lemma {:induction false} ScanPassIsFirstByKey(p: Platform, dir: string, k: nat, ext: string, entries: seq<DirEntry>, st: ScanState)
    ensures ScanPass(p, dir, ext, entries, st)
         == ScanState(st.tpa + Render(p, dir, FirstByKey(st.added, PassMatches(p, k, ext, entries))),
                      st.added + Keys(PassMatches(p, k, ext, entries)))
    decreases |entries|
  {
    if entries == [] {
      assert st.tpa + "" == st.tpa && st.added + {} == st.added;
    } else {
      var i := |entries| - 1;
      ScanPassIsFirstByKey(p, dir, k, ext, entries[..i], st);
      VisitStep(p, dir, k, ext, entries, st, PassMatches(p, k, ext, entries[..i]));
    }
  }

  /** Two consecutive stretches of matches compose. */
  lemma ComposeStretches(p: Platform, dir: string, st: ScanState, before: seq<Match>, pass: seq<Match>)
    ensures var mid := ScanState(st.tpa + Render(p, dir, FirstByKey(st.added, before)), st.added + Keys(before));
      ScanState(mid.tpa + Render(p, dir, FirstByKey(mid.added, pass)), mid.added + Keys(pass))
        == ScanState(st.tpa + Render(p, dir, FirstByKey(st.added, before + pass)), st.added + Keys(before + pass))
  {
    var fb := FirstByKey(st.added, before);
    var fp := FirstByKey(st.added + Keys(before), pass);
    var rb, rp := Render(p, dir, fb), Render(p, dir, fp);
    assert Render(p, dir, FirstByKey(st.added, before + pass)) == rb + rp by {
      FirstByKeyAppend(st.added, before, pass);
      RenderAppend(p, dir, fb, fp);
    }
    AppendAssoc(st.tpa, rb, rp);
    assert Keys(before + pass) == Keys(before) + Keys(pass) by {
      KeysAppend(before, pass);
    }
  }

  lemma {:induction false} ScanPassesIsFirstByKey(p: Platform, dir: string, exts: seq<string>, entries: seq<DirEntry>, st: ScanState)
    ensures ScanPasses(p, dir, exts, entries, st)
         == ScanState(st.tpa + Render(p, dir, FirstByKey(st.added, AllMatches(p, exts, entries))),
                      st.added + Keys(AllMatches(p, exts, entries)))
    decreases |exts|
  {
    if exts == [] {
      assert st.tpa + "" == st.tpa && st.added + {} == st.added;
    } else {
      var k := |exts| - 1;
      var before := AllMatches(p, exts[..k], entries);
      var pass := PassMatches(p, k, exts[k], entries);
      var mid := ScanState(st.tpa + Render(p, dir, FirstByKey(st.added, before)), st.added + Keys(before));
      assert ScanPasses(p, dir, exts[..k], entries, st) == mid by {
        ScanPassesIsFirstByKey(p, dir, exts[..k], entries, st);
      }
      assert ScanPass(p, dir, exts[k], entries, mid)
          == ScanState(mid.tpa + Render(p, dir, FirstByKey(mid.added, pass)), mid.added + Keys(pass)) by {
        ScanPassIsFirstByKey(p, dir, k, exts[k], entries, mid);
      }
      ComposeStretches(p, dir, st, before, pass);
    }
  }

  /** The builder appends exactly the chunks of the accepted files, in
      acceptance order, after the prior contents. */
  lemma AddToTpaListAppendsAccepted(p: Platform, dir: string, entries: seq<DirEntry>, tpa: string)
    ensures AddToTpaList(p, dir, Some(entries), tpa) == tpa + Render(p, dir, Accepted(p, entries))
  {
    ScanPassesIsFirstByKey(p, dir, Extensions, entries, ScanState(tpa, {}));
  }

  // ---------------------------------------------------------------------
  // Properties of the reference definition
  // ---------------------------------------------------------------------

  lemma {:induction false} PassMatchesDescribe(p: Platform, exts: seq<string>, k: nat, entries: seq<DirEntry>)
    requires k < |exts|
    ensures forall m :: m in PassMatches(p, k, exts[k], entries) ==> Describes(p, exts, entries, m) && m.pass == k
    decreases |entries|
  {
    if entries != [] {
      var i := |entries| - 1;
      PassMatchesDescribe(p, exts, k, entries[..i]);
      forall m | m in PassMatches(p, k, exts[k], entries[..i])
        ensures Describes(p, exts, entries, m)
      {
        assert Describes(p, exts, entries[..i], m);
        assert entries[..i][m.index] == entries[m.index];
      }
    }
  }

  lemma {:induction false} PassMatchesOrdered(p: Platform, k: nat, ext: string, entries: seq<DirEntry>)
    ensures Ordered(PassMatches(p, k, ext, entries))
    ensures forall m :: m in PassMatches(p, k, ext, entries) ==> m.pass == k && m.index < |entries|
    decreases |entries|
  {
    if entries != [] {
      var i := |entries| - 1;
      PassMatchesOrdered(p, k, ext, entries[..i]);
    }
  }

  lemma {:induction false} AllMatchesOrdered(p: Platform, exts: seq<string>, entries: seq<DirEntry>)
    ensures Ordered(AllMatches(p, exts, entries))
    ensures forall m :: m in AllMatches(p, exts, entries) ==> Describes(p, exts, entries, m)
    decreases |exts|
  {
    if exts != [] {
      var k := |exts| - 1;
      var before := AllMatches(p, exts[..k], entries);
      var pass := PassMatches(p, k, exts[k], entries);
      AllMatchesOrdered(p, exts[..k], entries);
      PassMatchesOrdered(p, k, exts[k], entries);
      PassMatchesDescribe(p, exts, k, entries);
      var all := before + pass;
      forall m | m in before
        ensures Describes(p, exts, entries, m) && m.pass < k
      {
        assert Describes(p, exts[..k], entries, m);
        assert exts[..k][m.pass] == exts[m.pass];
      }
      forall i, j | 0 <= i < j < |all|
        ensures Before(all[i], all[j])
      {
        if j < |before| {
          assert all[i] == before[i] && all[j] == before[j];
        } else if i >= |before| {
          assert all[i] == pass[i - |before|] && all[j] == pass[j - |before|];
        } else {
          assert all[i] in before && all[j] in pass;
        }
      }
    }
  }

  /** Every match is found: each admitted entry carrying extension k yields
      a match of pass k. */
  lemma {:induction false} PassMatchesComplete(p: Platform, k: nat, ext: string, entries: seq<DirEntry>, i: nat)
    requires i < |entries| && Admits(p, entries[i]) && HasExtension(entries[i].name, ext)
    ensures Match(k, i, entries[i].name, StripExtension(entries[i].name, ext)) in PassMatches(p, k, ext, entries)
    decreases |entries|
  {
    var last := |entries| - 1;
    if i < last {
      assert entries[..last][i] == entries[i];
      PassMatchesComplete(p, k, ext, entries[..last], i);
    }
  }

  lemma {:induction false} AllMatchesComplete(p: Platform, exts: seq<string>, entries: seq<DirEntry>, k: nat, i: nat)
    requires k < |exts| && i < |entries| && Admits(p, entries[i]) && HasExtension(entries[i].name, exts[k])
    ensures Match(k, i, entries[i].name, StripExtension(entries[i].name, exts[k])) in AllMatches(p, exts, entries)
    decreases |exts|
  {
    var last := |exts| - 1;
    if k < last {
      assert exts[..last][k] == exts[k];
      AllMatchesComplete(p, exts[..last], entries, k, i);
    } else {
      PassMatchesComplete(p, k, exts[k], entries, i);
    }
  }

  /** FirstByKey keeps members of its input whose keys are fresh. */
  lemma {:induction false} FirstByKeyMembers(seen: set<string>, ms: seq<Match>)
    ensures forall m :: m in FirstByKey(seen, ms) ==> m in ms && m.key !in seen
    decreases |ms|
  {
    if ms != [] {
      var prefix, m := ms[..|ms| - 1], ms[|ms| - 1];
      FirstByKeyMembers(seen, prefix);
      assert ms == prefix + [m];
      FirstByKeySnoc(seen, prefix, m);
    }
  }

  /** FirstByKey keeps order. */
  lemma {:induction false} FirstByKeyOrdered(seen: set<string>, ms: seq<Match>)
    requires Ordered(ms)
    ensures Ordered(FirstByKey(seen, ms))
    decreases |ms|
  {
    if ms != [] {
      var prefix, m := ms[..|ms| - 1], ms[|ms| - 1];
      assert ms == prefix + [m];
      FirstByKeyOrdered(seen, prefix);
      FirstByKeyMembers(seen, prefix);
      FirstByKeySnoc(seen, prefix, m);
      var fb := FirstByKey(seen, prefix);
      forall x | x in fb
        ensures Before(x, m)
      {
        var i :| 0 <= i < |prefix| && prefix[i] == x;
        assert ms[i] == x;
      }
    }
  }

  /** FirstByKey keeps at most one match per key. */
  lemma {:induction false} FirstByKeyDistinct(seen: set<string>, ms: seq<Match>)
    ensures forall i, j :: 0 <= i < j < |FirstByKey(seen, ms)| ==> FirstByKey(seen, ms)[i].key != FirstByKey(seen, ms)[j].key
    decreases |ms|
  {
    if ms != [] {
      var prefix, m := ms[..|ms| - 1], ms[|ms| - 1];
      assert ms == prefix + [m];
      FirstByKeyDistinct(seen, prefix);
      FirstByKeySnoc(seen, prefix, m);
      var fb := FirstByKey(seen, prefix);
      if m.key !in seen + Keys(prefix) {
        FirstByKeyMembers(seen, prefix);
        KeysMembers(prefix, m.key);
        var r := fb + [m];
        forall i | 0 <= i < |fb|
          ensures r[i].key != m.key
        {
          assert fb[i] in prefix;
        }
      }
    }
  }

  /** The match FirstByKey keeps for a key is the earliest one carrying it. */
  lemma {:induction false} FirstByKeyEarliest(seen: set<string>, ms: seq<Match>)
    requires Ordered(ms)
    ensures forall a, j :: a in FirstByKey(seen, ms) && 0 <= j < |ms| && ms[j].key == a.key ==> !Before(ms[j], a)
    decreases |ms|
  {
    if ms != [] {
      var prefix, m := ms[..|ms| - 1], ms[|ms| - 1];
      assert ms == prefix + [m];
      FirstByKeyEarliest(seen, prefix);
      FirstByKeyMembers(seen, prefix);
      FirstByKeySnoc(seen, prefix, m);
      var fb := FirstByKey(seen, prefix);
      forall a, j | a in FirstByKey(seen, ms) && 0 <= j < |ms| && ms[j].key == a.key
        ensures !Before(ms[j], a)
      {
        if a in fb {
          var t :| 0 <= t < |prefix| && prefix[t] == a;
          assert ms[t] == a;
          if j < |prefix| {
            assert ms[j] == prefix[j];
          }
        } else {
          assert a == m && m.key !in Keys(prefix);
          KeysMembers(prefix, m.key);
          assert forall t :: 0 <= t < |prefix| ==> ms[t] == prefix[t];
        }
      }
    }
  }

  /** FirstByKey drops no key: every key of the input is kept or was seen. */
  lemma {:induction false} FirstByKeyCovers(seen: set<string>, ms: seq<Match>)
    ensures Keys(FirstByKey(seen, ms)) + seen == Keys(ms) + seen
    decreases |ms|
  {
    if ms != [] {
      var prefix, m := ms[..|ms| - 1], ms[|ms| - 1];
      assert ms == prefix + [m];
      FirstByKeyCovers(seen, prefix);
      FirstByKeySnoc(seen, prefix, m);
      KeysSnoc(prefix, m);
      var fb := FirstByKey(seen, prefix);
      if m.key in seen + Keys(prefix) {
        assert fb + [] == fb;
      } else {
        KeysSnoc(fb, m);
      }
    }
  }

  // ---------------------------------------------------------------------
  // The builder's guarantees, about the files it accepts
  // ---------------------------------------------------------------------

  /** Each accepted file is an admitted listing entry whose name is longer
      than the extension of its pass and ends in it; its key is the name
      without that extension. */
  lemma AcceptedAreAdmittedMatches(p: Platform, entries: seq<DirEntry>)
    ensures forall m :: m in Accepted(p, entries) ==>
      && m.pass < 4
      && m.index < |entries|
      && entries[m.index].name == m.name
      && Admits(p, entries[m.index])
      && |m.name| > |Extensions[m.pass]|
      && m.name == m.key + Extensions[m.pass]
  {
    AllMatchesOrdered(p, Extensions, entries);
    FirstByKeyMembers({}, AllMatches(p, Extensions, entries));
  }

  /** Earlier passes precede later ones; within a pass, listing order. */
  lemma AcceptedInVisitOrder(p: Platform, entries: seq<DirEntry>)
    ensures forall i, j :: 0 <= i < j < |Accepted(p, entries)| ==>
      var a, b := Accepted(p, entries)[i], Accepted(p, entries)[j];
      a.pass < b.pass || (a.pass == b.pass && a.index < b.index)
  {
    AllMatchesOrdered(p, Extensions, entries);
    FirstByKeyOrdered({}, AllMatches(p, Extensions, entries));
  }

  /** No two accepted files share a key. */
  lemma AcceptedKeysDistinct(p: Platform, entries: seq<DirEntry>)
    ensures forall i, j :: 0 <= i < j < |Accepted(p, entries)| ==> Accepted(p, entries)[i].key != Accepted(p, entries)[j].key
  {
    FirstByKeyDistinct({}, AllMatches(p, Extensions, entries));
  }

  /** Every key some admitted entry yields in some pass is accepted once,
      and the accepted file is the first one with that key in visit order:
      the one of the earliest pass, then the earliest in the listing. */
  lemma AcceptedIsEarliestPerKey(p: Platform, entries: seq<DirEntry>, k: nat, i: nat)
    requires k < |Extensions| && i < |entries|
    requires Admits(p, entries[i]) && HasExtension(entries[i].name, Extensions[k])
    ensures exists a :: a in Accepted(p, entries) && a.key == StripExtension(entries[i].name, Extensions[k])
                     && (a.pass < k || (a.pass == k && a.index <= i))
  {
    var ms := AllMatches(p, Extensions, entries);
    var m := Match(k, i, entries[i].name, StripExtension(entries[i].name, Extensions[k]));
    AllMatchesComplete(p, Extensions, entries, k, i);
    AllMatchesOrdered(p, Extensions, entries);
    FirstByKeyCovers({}, ms);
    FirstByKeyEarliest({}, ms);
    KeysMembers(ms, m.key);
    var acc := Accepted(p, entries);
    assert m.key in Keys(acc);
    KeysMembers(acc, m.key);
    var t :| 0 <= t < |acc| && acc[t].key == m.key;
    var a := acc[t];
    var j :| 0 <= j < |ms| && ms[j] == m;
    assert !Before(ms[j], a);
  }

  /** The same name is accepted once per extension it ends in: a native
      image `foo.ni.dll` is appended under key `foo` in the first pass and
      again under key `foo.ni` in the second. */
  lemma NativeImageAppendedTwice(dir: string)
    ensures AddToTpaList(Posix, dir, Some([DirEntry("foo.ni.dll", Regular)]), "")
         == Chunk(Posix, dir, "foo.ni.dll") + Chunk(Posix, dir, "foo.ni.dll")
  {
    var entries := [DirEntry("foo.ni.dll", Regular)];
    var ms := [Match(0, 0, "foo.ni.dll", "foo"), Match(1, 0, "foo.ni.dll", "foo.ni")];
    var c := Chunk(Posix, dir, "foo.ni.dll");
    assert AddToTpaList(Posix, dir, Some(entries), "") == "" + Render(Posix, dir, ms) by {
      OneNativeImageAccepted();
      AddToTpaListAppendsAccepted(Posix, dir, entries, "");
    }
    assert Render(Posix, dir, ms) == c + c by {
      RenderSnoc(Posix, dir, [ms[0]], ms[1]);
      RenderSnoc(Posix, dir, [], ms[0]);
      assert [ms[0]] + [ms[1]] == ms;
    }
    assert "" + (c + c) == c + c;
  }

  /** The files accepted from a listing holding only `foo.ni.dll`. */
  lemma OneNativeImageAccepted()
    ensures Accepted(Posix, [DirEntry("foo.ni.dll", Regular)])
         == [Match(0, 0, "foo.ni.dll", "foo"), Match(1, 0, "foo.ni.dll", "foo.ni")]
  {
    var m0 := Match(0, 0, "foo.ni.dll", "foo");
    var m1 := Match(1, 0, "foo.ni.dll", "foo.ni");
    OneNativeImageMatches();
    FirstByKeySnoc({}, [m0], m1);
    FirstByKeySnoc({}, [], m0);
    KeysSnoc([], m0);
    assert [m0] + [m1] == [m0, m1];
  }

  /** The matches of a listing holding only `foo.ni.dll`. */
  lemma OneNativeImageMatches()
    ensures AllMatches(Posix, Extensions, [DirEntry("foo.ni.dll", Regular)])
         == [Match(0, 0, "foo.ni.dll", "foo"), Match(1, 0, "foo.ni.dll", "foo.ni")]
  {
    var entries := [DirEntry("foo.ni.dll", Regular)];
    var m0 := Match(0, 0, "foo.ni.dll", "foo");
    var m1 := Match(1, 0, "foo.ni.dll", "foo.ni");
    assert entries[..0] == [];
    assert PassMatches(Posix, 0, ".ni.dll", entries) == [m0] by {
      assert HasExtension("foo.ni.dll", ".ni.dll");
      assert StripExtension("foo.ni.dll", ".ni.dll") == "foo";
    }
    assert PassMatches(Posix, 1, ".dll", entries) == [m1] by {
      assert HasExtension("foo.ni.dll", ".dll");
      assert StripExtension("foo.ni.dll", ".dll") == "foo.ni";
    }
    assert PassMatches(Posix, 2, ".ni.exe", entries) == [] by {
      assert !HasExtension("foo.ni.dll", ".ni.exe");
    }
    assert PassMatches(Posix, 3, ".exe", entries) == [] by {
      assert !HasExtension("foo.ni.dll", ".exe");
    }
    var e1 := [".ni.dll"];
    var e2 := e1 + [".dll"];
    var e3 := e2 + [".ni.exe"];
    assert Extensions == e3 + [".exe"];
    assert AllMatches(Posix, e1, entries) == [m0] by {
      assert e1[..0] == [];
    }
    assert AllMatches(Posix, e2, entries) == [m0, m1] by {
      assert e2[..1] == e1;
    }
    assert AllMatches(Posix, e3, entries) == [m0, m1] by {
      assert e3[..2] == e2;
    }
    assert Extensions[..3] == e3;
  }
}
