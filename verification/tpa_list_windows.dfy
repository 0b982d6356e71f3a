/** The Windows AddToTpaList as written.

    It differs from the POSIX variant in one computation: the extension
    position `filename.length() - currentExtensionLength` is taken in
    unsigned `size_t` arithmetic.  For a name shorter than the extension it
    wraps to a huge value, the `<= 0` test does not catch it, and
    `std::string::compare` then throws `std::out_of_range` because the
    position lies past the end of the name.  The first pass uses `.ni.dll`,
    seven characters long, so any non-directory entry with a name of six
    characters or fewer (`a.dll`, say) makes the call throw.

    TpaList.AddToTpaList with the Windows platform is the corrected
    variant (the signed position of the POSIX code), and it is the one the
    Windows startup sequence uses.
*/
module TpaListWindows {
  import opened Wrappers
  import opened TpaList

  /** 2^64 stands for the `size_t` modulus. The code also builds for 32-bit
      x86 and arm, where it is 2^32; every modulus larger than the
      extension's length wraps a short name's position past its end, so
      the same names throw whichever width is used. */
  const SizeTModulus: int := 0x1_0000_0000_0000_0000

  /** `filename.length() - currentExtensionLength` as a `size_t`; exact for
      every name shorter than 2^64 characters. */
  function ExtensionPosition(name: string, ext: string): (pos: int)
    ensures |name| >= |ext| ==> pos == |name| - |ext|
    ensures |name| < |ext| < SizeTModulus ==> pos > |name|
  {
    if |name| >= |ext| then |name| - |ext| else SizeTModulus + |name| - |ext|
  }

  function Min(a: int, b: int): int {
    if a <= b then a else b
  }

  /** The scan in progress, or the exception that escaped it together with
      the list as far as it had been extended. */
  datatype WinScan = Scanning(st: ScanState) | Threw(tpa: string)

  /** One iteration of the do-while loop. */
  function WinVisit(dir: string, ext: string, e: DirEntry, s: WinScan): WinScan {
    match s
    case Threw(_) => s
    case Scanning(st) =>
      if e.kind.Directory? then s
      else
        var pos := ExtensionPosition(e.name, ext);
        if pos <= 0 then s
        // basic_string::compare(pos, n, s) throws when pos > size()
        else if pos > |e.name| then Threw(st.tpa)
        else if e.name[pos..Min(pos + |ext|, |e.name|)] != ext then s
        else
          var key := e.name[..pos];
          if key in st.added then s
          else Scanning(ScanState(st.tpa + Chunk(Windows, dir, e.name), st.added + {key}))
  }

  function WinScanPass(dir: string, ext: string, entries: seq<DirEntry>, s: WinScan): WinScan
    decreases |entries|
  {
    if entries == [] then s
    else
      var last := |entries| - 1;
      WinVisit(dir, ext, entries[last], WinScanPass(dir, ext, entries[..last], s))
  }

  function WinScanPasses(dir: string, exts: seq<string>, entries: seq<DirEntry>, s: WinScan): WinScan
    decreases |exts|
  {
    if exts == [] then s
    else
      var last := |exts| - 1;
      WinScanPass(dir, exts[last], entries, WinScanPasses(dir, exts[..last], entries, s))
  }

  /** The Windows AddToTpaList as written: Success with the extended list,
      or Failure carrying the list as it stood when std::out_of_range was
      thrown.  `listing` is None when FindFirstFile fails. */
  function AddToTpaListAsWritten(dir: string, listing: Option<seq<DirEntry>>, tpa: string): Result<string, string> {
    match listing
    case None => Success(tpa)
    case Some(entries) =>
      match WinScanPasses(dir, Extensions, entries, Scanning(ScanState(tpa, {})))
      case Scanning(st) => Success(st.tpa)
      case Threw(partial) => Failure(partial)
  }

  /** A non-directory entry whose name is shorter than `len` characters. */
  predicate ShortFile(e: DirEntry, len: nat) {
    !e.kind.Directory? && |e.name| < len
  }

  // ---------------------------------------------------------------------
  // Agreement with the corrected builder when no name is too short
  // ---------------------------------------------------------------------

  lemma WinVisitAgrees(dir: string, ext: string, e: DirEntry, st: ScanState)
    requires !ShortFile(e, |ext|)
    ensures WinVisit(dir, ext, e, Scanning(st)) == Scanning(Visit(Windows, dir, ext, e, st))
  {
    if !e.kind.Directory? {
      var pos := ExtensionPosition(e.name, ext);
      assert pos == |e.name| - |ext|;
      assert Min(pos + |ext|, |e.name|) == |e.name|;
    }
  }

  lemma {:induction false} WinScanPassAgrees(dir: string, ext: string, entries: seq<DirEntry>, st: ScanState)
    requires forall e :: e in entries ==> !ShortFile(e, |ext|)
    ensures WinScanPass(dir, ext, entries, Scanning(st)) == Scanning(ScanPass(Windows, dir, ext, entries, st))
    decreases |entries|
  {
    if entries != [] {
      var last := |entries| - 1;
      WinScanPassAgrees(dir, ext, entries[..last], st);
      WinVisitAgrees(dir, ext, entries[last], ScanPass(Windows, dir, ext, entries[..last], st));
    }
  }

  lemma {:induction false} WinScanPassesAgree(dir: string, exts: seq<string>, entries: seq<DirEntry>, st: ScanState, len: nat)
    requires forall x :: x in exts ==> |x| <= len
    requires forall e :: e in entries ==> !ShortFile(e, len)
    ensures WinScanPasses(dir, exts, entries, Scanning(st)) == Scanning(ScanPasses(Windows, dir, exts, entries, st))
    decreases |exts|
  {
    if exts != [] {
      var last := |exts| - 1;
      assert exts[last] in exts;
      WinScanPassesAgree(dir, exts[..last], entries, st, len);
      WinScanPassAgrees(dir, exts[last], entries, ScanPasses(Windows, dir, exts[..last], entries, st));
    }
  }

  // ---------------------------------------------------------------------
  // A short name throws, and the exception ends the scan
  // ---------------------------------------------------------------------

  lemma {:induction false} WinScanPassStaysThrown(dir: string, ext: string, entries: seq<DirEntry>, tpa: string)
    ensures WinScanPass(dir, ext, entries, Threw(tpa)) == Threw(tpa)
    decreases |entries|
  {
    if entries != [] {
      WinScanPassStaysThrown(dir, ext, entries[..|entries| - 1], tpa);
    }
  }

  lemma {:induction false} WinScanPassesStayThrown(dir: string, exts: seq<string>, entries: seq<DirEntry>, tpa: string)
    ensures WinScanPasses(dir, exts, entries, Threw(tpa)) == Threw(tpa)
    decreases |exts|
  {
    if exts != [] {
      var last := |exts| - 1;
      WinScanPassesStayThrown(dir, exts[..last], entries, tpa);
      WinScanPassStaysThrown(dir, exts[last], entries, tpa);
    }
  }

  lemma {:induction false} WinScanPassThrows(dir: string, ext: string, entries: seq<DirEntry>, s: WinScan)
    requires |ext| < SizeTModulus
    requires exists e :: e in entries && ShortFile(e, |ext|)
    ensures WinScanPass(dir, ext, entries, s).Threw?
    decreases |entries|
  {
    var last := |entries| - 1;
    var prev := WinScanPass(dir, ext, entries[..last], s);
    if exists e :: e in entries[..last] && ShortFile(e, |ext|) {
      WinScanPassThrows(dir, ext, entries[..last], s);
    } else {
      assert ShortFile(entries[last], |ext|);
      if prev.Scanning? {
        assert ExtensionPosition(entries[last].name, ext) > |entries[last].name|;
      }
    }
  }

  /** The as-written builder throws exactly when the listing holds a
      non-directory entry whose name is shorter than `.ni.dll`; otherwise it
      computes what the corrected builder computes. */
  lemma AsWrittenThrowsIffShortName(dir: string, entries: seq<DirEntry>, tpa: string)
    ensures AddToTpaListAsWritten(dir, Some(entries), tpa).Failure?
        <==> exists e :: e in entries && ShortFile(e, 7)
    ensures (forall e :: e in entries ==> !ShortFile(e, 7))
        ==> AddToTpaListAsWritten(dir, Some(entries), tpa) == Success(AddToTpaList(Windows, dir, Some(entries), tpa))
  {
    var st := ScanState(tpa, {});
    if exists e :: e in entries && ShortFile(e, 7) {
      var rest := [".dll", ".ni.exe", ".exe"];
      assert Extensions == [".ni.dll"] + rest;
      assert Extensions[..1] == [".ni.dll"];
      assert [".ni.dll"][..0] == [];
      assert Extensions[..2] == [".ni.dll", ".dll"];
      assert Extensions[..3] == [".ni.dll", ".dll", ".ni.exe"];
      assert Extensions[..3][..2] == Extensions[..2] && Extensions[..2][..1] == Extensions[..1];
      assert Extensions[..1][..0] == [];
      WinScanPassThrows(dir, ".ni.dll", entries, Scanning(st));
      var thrown := WinScanPass(dir, ".ni.dll", entries, Scanning(st));
      assert WinScanPasses(dir, Extensions[..1], entries, Scanning(st)) == thrown;
      WinScanPassStaysThrown(dir, ".dll", entries, thrown.tpa);
      assert WinScanPasses(dir, Extensions[..2], entries, Scanning(st)) == thrown;
      WinScanPassStaysThrown(dir, ".ni.exe", entries, thrown.tpa);
      assert WinScanPasses(dir, Extensions[..3], entries, Scanning(st)) == thrown;
      WinScanPassStaysThrown(dir, ".exe", entries, thrown.tpa);
      assert WinScanPasses(dir, Extensions, entries, Scanning(st)) == thrown;
    } else {
      WinScanPassesAgree(dir, Extensions, entries, st, 7);
    }
  }

  /** `a.dll` in the runtime directory: the as-written code throws. */
  lemma ShortAssemblyNameThrows(dir: string)
    ensures AddToTpaListAsWritten(dir, Some([DirEntry("a.dll", Regular)]), "").Failure?
  {
    var entries := [DirEntry("a.dll", Regular)];
    assert entries[0] in entries && ShortFile(entries[0], 7);
    AsWrittenThrowsIffShortName(dir, entries, "");
  }

  /** The corrected builder accepts `a.dll` in the `.dll` pass instead. */
  lemma ShortAssemblyNameAccepted(dir: string)
    ensures AddToTpaList(Windows, dir, Some([DirEntry("a.dll", Regular)]), "") == Chunk(Windows, dir, "a.dll")
  {
    var entries := [DirEntry("a.dll", Regular)];
    var m := Match(1, 0, "a.dll", "a");
    assert AddToTpaList(Windows, dir, Some(entries), "") == "" + Render(Windows, dir, Accepted(Windows, entries)) by {
      AddToTpaListAppendsAccepted(Windows, dir, entries, "");
    }
    assert Accepted(Windows, entries) == [m] by {
      ShortNameMatches();
      FirstByKeySnoc({}, [], m);
    }
    assert Render(Windows, dir, [m]) == Chunk(Windows, dir, "a.dll") by {
      RenderSnoc(Windows, dir, [], m);
    }
  }

  lemma ShortNameMatches()
    ensures AllMatches(Windows, Extensions, [DirEntry("a.dll", Regular)]) == [Match(1, 0, "a.dll", "a")]
  {
    var entries := [DirEntry("a.dll", Regular)];
    var m := Match(1, 0, "a.dll", "a");
    assert entries[..0] == [];
    assert PassMatches(Windows, 0, ".ni.dll", entries) == [] by {
      assert !HasExtension("a.dll", ".ni.dll");
    }
    assert PassMatches(Windows, 1, ".dll", entries) == [m] by {
      assert HasExtension("a.dll", ".dll");
      assert StripExtension("a.dll", ".dll") == "a";
    }
    assert PassMatches(Windows, 2, ".ni.exe", entries) == [] by {
      assert !HasExtension("a.dll", ".ni.exe");
    }
    assert PassMatches(Windows, 3, ".exe", entries) == [] by {
      assert !HasExtension("a.dll", ".exe");
    }
    var e1 := [".ni.dll"];
    var e2 := e1 + [".dll"];
    var e3 := e2 + [".ni.exe"];
    assert Extensions == e3 + [".exe"];
    assert AllMatches(Windows, e1, entries) == [] by {
      assert e1[..0] == [];
    }
    assert AllMatches(Windows, e2, entries) == [m] by {
      assert e2[..1] == e1;
    }
    assert AllMatches(Windows, e3, entries) == [m] by {
      assert e3[..2] == e2;
    }
    assert Extensions[..3] == e3;
  }
}
