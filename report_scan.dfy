/** The line-by-line scan of the build action's loadRatios: every line that
    contains `<small>` yields one ratio, which goes into the first empty one
    of four slots (line, statement, function, branch). */
module ReportScan {
  import opened Wrappers
  import opened Text
  import opened Builds
  import opened RatioParser

  /** The ratio slots of one report; None is a slot not yet filled. */
  type Slots = seq<Option<Ratio>>

  const EmptySlots: Slots := [None, None, None, None]

  predicate IsSmallLine(line: string) {
    exists i :: 0 <= i <= |line| - |SmallTag| && OccursAt(line, SmallTag, i)
  }

  /** The first empty slot, or |slots| when all are filled. */
  function FirstFree(slots: Slots): (k: nat)
    ensures k <= |slots|
    ensures k < |slots| ==> slots[k].None?
    ensures forall i :: 0 <= i < k ==> slots[i].Some?
  {
    if slots == [] then 0
    else if slots[0].None? then 0
    else 1 + FirstFree(slots[1..])
  }

  /** How scanning one stream ends: with the slots, or with the exception
      thrown by a `<small>` line whose parentheses cannot be read. */
  datatype ScanOutcome = Filled(slots: Slots) | Malformed

  /** The reading loop of loadRatios over the lines of one stream. Once the
      fourth slot is filled the loop breaks; with all four already filled
      on entry it reads (and may still fail on) every `<small>` line. */
  function Scan(slots: Slots, lines: seq<string>): (r: ScanOutcome)
    requires |slots| == SlotCount
    ensures r.Filled? ==> |r.slots| == SlotCount
    decreases |lines|
  {
    if lines == [] then Filled(slots)
    else if !IsSmallLine(lines[0]) then Scan(slots, lines[1..])
    else match ExtractRatio(lines[0])
      case None => Malformed
      case Some(ratio) =>
        var k := FirstFree(slots);
        if k == SlotCount then Scan(slots, lines[1..])
        else if k == SlotCount - 1 then Filled(slots[k := Some(ratio)])
        else Scan(slots[k := Some(ratio)], lines[1..])
  }

  /** b keeps every filled slot of a. */
  predicate KeepsFilled(a: Slots, b: Slots) {
    |a| == |b| && forall i :: 0 <= i < |a| && a[i].Some? ==> b[i] == a[i]
  }

  lemma FillKeepsFilled(slots: Slots, k: nat, r: Option<Ratio>)
    requires |slots| == SlotCount && k < SlotCount && k == FirstFree(slots)
    ensures KeepsFilled(slots, slots[k := r])
  {
  }

  /** The scan never overwrites a filled slot. */
  lemma {:induction false} ScanKeepsFilledSlots(slots: Slots, lines: seq<string>)
    requires |slots| == SlotCount
    ensures Scan(slots, lines).Filled? ==> KeepsFilled(slots, Scan(slots, lines).slots)
    decreases |lines|
  {
    if lines == [] {
    } else if !IsSmallLine(lines[0]) {
      ScanPlainStep(slots, lines);
      ScanKeepsFilledSlots(slots, lines[1..]);
    } else if ExtractRatio(lines[0]).None? {
      ScanMalformedStep(slots, lines);
    } else {
      var k := FirstFree(slots);
      if k == SlotCount {
        ScanFullStep(slots, lines);
        ScanKeepsFilledSlots(slots, lines[1..]);
      } else {
        var next := slots[k := ExtractRatio(lines[0])];
        FillKeepsFilled(slots, k, ExtractRatio(lines[0]));
        ScanFillStep(slots, lines, k);
        if k < SlotCount - 1 {
          ScanKeepsFilledSlots(next, lines[1..]);
        }
      }
    }
  }

  /** The `<small>` lines of a stream, in order. */
  function SmallLines(lines: seq<string>): (r: seq<string>)
    ensures |r| <= |lines|
    ensures forall i :: 0 <= i < |r| ==> IsSmallLine(r[i])
  {
    if lines == [] then []
    else if IsSmallLine(lines[0]) then [lines[0]] + SmallLines(lines[1..])
    else SmallLines(lines[1..])
  }

  /** Only `<small>` lines matter to the scan. */
  lemma {:induction false} ScanSeesOnlySmallLines(slots: Slots, lines: seq<string>)
    requires |slots| == SlotCount
    ensures Scan(slots, lines) == Scan(slots, SmallLines(lines))
    decreases |lines|
  {
    if lines != [] {
      ScanSeesOnlySmallLines(slots, lines[1..]);
      if IsSmallLine(lines[0]) {
        var k := FirstFree(slots);
        assert SmallLines(lines)[1..] == SmallLines(lines[1..]);
        match ExtractRatio(lines[0])
        case None =>
        case Some(ratio) =>
          if k < SlotCount - 1 {
            ScanSeesOnlySmallLines(slots[k := Some(ratio)], lines[1..]);
          }
      }
    }
  }

  /** Every `<small>` line of the stream has readable parentheses. */
  predicate WellFormed(lines: seq<string>) {
    forall i :: 0 <= i < |lines| && IsSmallLine(lines[i]) ==> ExtractRatio(lines[i]).Some?
  }

  /** The ratio a single line contributes: one for a `<small>` line with
      readable parentheses, none otherwise. */
  function LineRatios(line: string): seq<Ratio> {
    if IsSmallLine(line) && ExtractRatio(line).Some? then [ExtractRatio(line).value] else []
  }

  /** The ratios of the readable `<small>` lines of a stream, in order. */
  function SmallRatios(lines: seq<string>): (r: seq<Ratio>)
    ensures |r| <= |lines|
    decreases |lines|
  {
    if lines == [] then [] else LineRatios(lines[0]) + SmallRatios(lines[1..])
  }

  /** In a well-formed stream every `<small>` line gives one ratio. */
  lemma {:induction false} SmallRatiosCount(lines: seq<string>)
    requires WellFormed(lines)
    ensures |SmallRatios(lines)| == |SmallLines(lines)|
    decreases |lines|
  {
    if lines != [] {
      WellFormedTail(lines);
      SmallRatiosCount(lines[1..]);
    }
  }

  /** The reference definition: ratios placed one by one into the first
      empty slot, as long as there is one. */
  function Fill(slots: Slots, ratios: seq<Ratio>): (r: Slots)
    requires |slots| == SlotCount
    ensures |r| == SlotCount
    decreases |ratios|
  {
    if ratios == [] then slots
    else
      var k := FirstFree(slots);
      if k == SlotCount then slots
      else Fill(slots[k := Some(ratios[0])], ratios[1..])
  }

  /** Full slots take nothing more. */
  lemma FillFull(slots: Slots, ratios: seq<Ratio>)
    requires |slots| == SlotCount && FirstFree(slots) == SlotCount
    ensures Fill(slots, ratios) == slots
  {
  }

  /** Filling with two batches is filling with both in order. */
  lemma {:induction false} FillAppend(slots: Slots, a: seq<Ratio>, b: seq<Ratio>)
    requires |slots| == SlotCount
    ensures Fill(slots, a + b) == Fill(Fill(slots, a), b)
    decreases |a|
  {
    if a == [] {
      assert a + b == b;
    } else {
      var k := FirstFree(slots);
      if k == SlotCount {
        FillFull(slots, a + b);
        FillFull(slots, b);
      } else {
        assert (a + b)[1..] == a[1..] + b;
        FillAppend(slots[k := Some(a[0])], a[1..], b);
      }
    }
  }

  lemma WellFormedTail(lines: seq<string>)
    requires lines != [] && WellFormed(lines)
    ensures WellFormed(lines[1..])
  {
    forall i | 0 <= i < |lines| - 1 && IsSmallLine(lines[1..][i])
      ensures ExtractRatio(lines[1..][i]).Some?
    {
      assert lines[1..][i] == lines[i + 1];
    }
  }

  lemma SmallRatiosCons(lines: seq<string>)
    requires lines != [] && IsSmallLine(lines[0]) && ExtractRatio(lines[0]).Some?
    ensures SmallRatios(lines) == [ExtractRatio(lines[0]).value] + SmallRatios(lines[1..])
  {
  }

  /** A ratio goes into the first free slot, and the rest follow it. */
  lemma FillCons(slots: Slots, ratio: Ratio, rest: seq<Ratio>)
    requires |slots| == SlotCount && FirstFree(slots) < SlotCount
    ensures Fill(slots, [ratio] + rest) == Fill(slots[FirstFree(slots) := Some(ratio)], rest)
  {
    assert ([ratio] + rest)[1..] == rest;
  }

  /** One step of the scan over a readable `<small>` line. */
  lemma ScanStep(slots: Slots, lines: seq<string>, ratio: Ratio)
    requires |slots| == SlotCount && lines != []
    requires IsSmallLine(lines[0]) && ExtractRatio(lines[0]) == Some(ratio)
    ensures FirstFree(slots) == SlotCount ==> Scan(slots, lines) == Scan(slots, lines[1..])
    ensures FirstFree(slots) == SlotCount - 1 ==> Scan(slots, lines) == Filled(slots[SlotCount - 1 := Some(ratio)])
    ensures FirstFree(slots) < SlotCount - 1 ==> Scan(slots, lines) == Scan(slots[FirstFree(slots) := Some(ratio)], lines[1..])
  {
  }

  /** Scanning a well-formed stream is filling with its ratios: the slots
      receive the stream's ratios in order until all four are filled. */
  lemma {:induction false} ScanWellFormed(slots: Slots, lines: seq<string>)
    requires |slots| == SlotCount && WellFormed(lines)
    ensures Scan(slots, lines) == Filled(Fill(slots, SmallRatios(lines)))
    decreases |lines|, 1
  {
    if lines != [] {
      WellFormedTail(lines);
      if IsSmallLine(lines[0]) {
        ScanWellFormedSmall(slots, lines);
      } else {
        ScanWellFormed(slots, lines[1..]);
        assert LineRatios(lines[0]) == [];
        assert SmallRatios(lines) == SmallRatios(lines[1..]);
      }
    }
  }

  lemma {:induction false} ScanWellFormedSmall(slots: Slots, lines: seq<string>)
    requires |slots| == SlotCount && lines != [] && WellFormed(lines) && WellFormed(lines[1..])
    requires IsSmallLine(lines[0])
    ensures Scan(slots, lines) == Filled(Fill(slots, SmallRatios(lines)))
    decreases |lines|, 0
  {
    var k := FirstFree(slots);
    if k == SlotCount {
      ScanWellFormed(slots, lines[1..]);
      ScanWellFormedWhenFull(slots, lines);
    } else if k == SlotCount - 1 {
      ScanWellFormedLastSlot(slots, lines);
    } else {
      ScanWellFormed(slots[k := Some(ExtractRatio(lines[0]).value)], lines[1..]);
      ScanWellFormedEarlySlot(slots, lines);
    }
  }

  lemma ScanWellFormedWhenFull(slots: Slots, lines: seq<string>)
    requires |slots| == SlotCount && lines != []
    requires IsSmallLine(lines[0]) && ExtractRatio(lines[0]).Some? && FirstFree(slots) == SlotCount
    requires Scan(slots, lines[1..]) == Filled(Fill(slots, SmallRatios(lines[1..])))
    ensures Scan(slots, lines) == Filled(Fill(slots, SmallRatios(lines)))
  {
    var ratio := ExtractRatio(lines[0]).value;
    var rest := SmallRatios(lines[1..]);
    SmallRatiosCons(lines);
    ScanStep(slots, lines, ratio);
    FillFull(slots, rest);
    FillFull(slots, [ratio] + rest);
  }

  lemma ScanWellFormedLastSlot(slots: Slots, lines: seq<string>)
    requires |slots| == SlotCount && lines != []
    requires IsSmallLine(lines[0]) && ExtractRatio(lines[0]).Some? && FirstFree(slots) == SlotCount - 1
    ensures Scan(slots, lines) == Filled(Fill(slots, SmallRatios(lines)))
  {
    var ratio := ExtractRatio(lines[0]).value;
    var rest := SmallRatios(lines[1..]);
    SmallRatiosCons(lines);
    ScanStep(slots, lines, ratio);
    FillLastSlot(slots, ratio, rest);
  }

  /** A ratio that takes the last free slot ends the filling. */
  lemma FillLastSlot(slots: Slots, ratio: Ratio, rest: seq<Ratio>)
    requires |slots| == SlotCount && FirstFree(slots) == SlotCount - 1
    ensures Fill(slots, [ratio] + rest) == slots[SlotCount - 1 := Some(ratio)]
  {
    FillCons(slots, ratio, rest);
    var next := slots[SlotCount - 1 := Some(ratio)];
    FirstFreeOfFull(next);
    FillFull(next, rest);
  }

  lemma ScanWellFormedEarlySlot(slots: Slots, lines: seq<string>)
    requires |slots| == SlotCount && lines != []
    requires IsSmallLine(lines[0]) && ExtractRatio(lines[0]).Some? && FirstFree(slots) < SlotCount - 1
    requires var next := slots[FirstFree(slots) := Some(ExtractRatio(lines[0]).value)];
             Scan(next, lines[1..]) == Filled(Fill(next, SmallRatios(lines[1..])))
    ensures Scan(slots, lines) == Filled(Fill(slots, SmallRatios(lines)))
  {
    var ratio := ExtractRatio(lines[0]).value;
    var rest := SmallRatios(lines[1..]);
    SmallRatiosCons(lines);
    ScanStep(slots, lines, ratio);
    FillCons(slots, ratio, rest);
  }

  lemma FirstFreeOfFull(slots: Slots)
    requires forall i :: 0 <= i < |slots| ==> slots[i].Some?
    ensures FirstFree(slots) == |slots|
  {
  }

  /** The slots holding the ratios p in order, the rest empty. */
  function Prefixed(p: seq<Ratio>): (r: Slots)
    requires |p| <= SlotCount
    ensures |r| == SlotCount
    ensures forall i :: 0 <= i < SlotCount ==> r[i] == (if i < |p| then Some(p[i]) else None)
  {
    seq(SlotCount, i requires 0 <= i < SlotCount => if i < |p| then Some(p[i]) else None)
  }

  function Min(a: int, b: int): int {
    if a < b then a else b
  }

  /** The first four ratios, or all of them when there are fewer. */
  function FirstFour(rs: seq<Ratio>): (r: seq<Ratio>)
    ensures |r| == Min(|rs|, SlotCount) && r == rs[..|r|]
  {
    rs[..Min(|rs|, SlotCount)]
  }

  lemma FirstFreeOfPrefixed(p: seq<Ratio>)
    requires |p| <= SlotCount
    ensures FirstFree(Prefixed(p)) == |p|
  {
    var s := Prefixed(p);
    if |p| == SlotCount {
      FirstFreeOfFull(s);
    } else {
      FirstFreeIsFirstNone(s, |p|);
    }
  }

  lemma FirstFreeIsFirstNone(slots: Slots, k: nat)
    requires k < |slots| && slots[k].None?
    requires forall i :: 0 <= i < k ==> slots[i].Some?
    ensures FirstFree(slots) == k
  {
  }

  /** Filling slots that hold p with ratios rs keeps the first four of
      p followed by rs. */
  lemma {:induction false} FillPrefixed(p: seq<Ratio>, rs: seq<Ratio>)
    requires |p| <= SlotCount
    ensures Fill(Prefixed(p), rs) == Prefixed(FirstFour(p + rs))
    decreases |rs|
  {
    FirstFreeOfPrefixed(p);
    if rs == [] {
      assert p + rs == p;
    } else if |p| == SlotCount {
      assert FirstFour(p + rs) == p;
    } else {
      var p' := p + [rs[0]];
      assert Prefixed(p)[|p| := Some(rs[0])] == Prefixed(p');
      assert p' + rs[1..] == p + rs;
      FillPrefixed(p', rs[1..]);
    }
  }

  /** Scanning from empty slots keeps the first four ratios. */
  lemma FillFromEmpty(rs: seq<Ratio>)
    ensures Fill(EmptySlots, rs) == Prefixed(FirstFour(rs))
  {
    assert EmptySlots == Prefixed([]);
    FillPrefixed([], rs);
    assert [] + rs == rs;
  }

  /** Reading stops once the fourth slot is filled: whatever follows that
      line in the same stream, even an unreadable `<small>` line, is not
      read. */
  lemma StopsAfterFourthSlot(slots: Slots, line: string, rest: seq<string>)
    requires |slots| == SlotCount && FirstFree(slots) == SlotCount - 1
    requires IsSmallLine(line) && ExtractRatio(line).Some?
    ensures Scan(slots, [line] + rest) == Filled(slots[SlotCount - 1 := ExtractRatio(line)])
  {
    assert ([line] + rest)[1..] == rest;
  }

  /** An unreadable `<small>` line fails the scan even when all slots are
      already filled. */
  lemma MalformedFailsWhenFull(slots: Slots, line: string, rest: seq<string>)
    requires |slots| == SlotCount && FirstFree(slots) == SlotCount
    requires IsSmallLine(line) && ExtractRatio(line).None?
    ensures Scan(slots, [line] + rest) == Malformed
  {
  }

  lemma ScanPlainStep(slots: Slots, lines: seq<string>)
    requires |slots| == SlotCount && lines != [] && !IsSmallLine(lines[0])
    ensures Scan(slots, lines) == Scan(slots, lines[1..])
  {
  }

  lemma ScanMalformedStep(slots: Slots, lines: seq<string>)
    requires |slots| == SlotCount && lines != [] && IsSmallLine(lines[0]) && ExtractRatio(lines[0]).None?
    ensures Scan(slots, lines) == Malformed
  {
  }

  /** A readable `<small>` line going into the empty slot k. */
  lemma ScanFillStep(slots: Slots, lines: seq<string>, k: nat)
    requires |slots| == SlotCount && lines != [] && IsSmallLine(lines[0]) && ExtractRatio(lines[0]).Some?
    requires k < SlotCount && slots[k].None? && forall i :: 0 <= i < k ==> slots[i].Some?
    ensures k < SlotCount - 1 ==> Scan(slots, lines) == Scan(slots[k := ExtractRatio(lines[0])], lines[1..])
    ensures k == SlotCount - 1 ==> Scan(slots, lines) == Filled(slots[k := ExtractRatio(lines[0])])
  {
    FirstFreeIsFirstNone(slots, k);
    ScanStep(slots, lines, ExtractRatio(lines[0]).value);
  }

  /** A readable `<small>` line when every slot is filled. */
  lemma ScanFullStep(slots: Slots, lines: seq<string>)
    requires |slots| == SlotCount && lines != [] && IsSmallLine(lines[0]) && ExtractRatio(lines[0]).Some?
    requires forall i :: 0 <= i < SlotCount ==> slots[i].Some?
    ensures Scan(slots, lines) == Scan(slots, lines[1..])
  {
    FirstFreeOfFull(slots);
    ScanStep(slots, lines, ExtractRatio(lines[0]).value);
  }

  /** The if-chain of loadRatios: the ratio goes into the first of the four
      slots that is empty; the result is that slot's index, or SlotCount
      when all four were filled already. */
  method PutInFirstFree(slots: array<Option<Ratio>>, ratio: Ratio) returns (k: nat)
    requires slots.Length >= SlotCount
    modifies slots
    ensures k == FirstFree(old(slots[..SlotCount]))
    ensures k < SlotCount ==> slots[..] == old(slots[..])[k := Some(ratio)]
    ensures k == SlotCount ==> slots[..] == old(slots[..])
  {
    ghost var before := slots[..SlotCount];
    if slots[0].None? {
      k := 0;
    } else if slots[1].None? {
      k := 1;
    } else if slots[2].None? {
      k := 2;
    } else if slots[3].None? {
      k := 3;
    } else {
      FirstFreeOfFull(before);
      return SlotCount;
    }
    FirstFreeIsFirstNone(before, k);
    slots[k] := Some(ratio);
  }

  /** The slots an array holds at the start of loadRatios. */
  function StartSlots(r: array?<Option<Ratio>>): (s: Slots)
    reads r
    ensures |s| == SlotCount
  {
    if r == null || r.Length < SlotCount then EmptySlots else r[..SlotCount]
  }

  /** loadRatios: a missing or short array is replaced by four empty slots,
      then the stream's lines are scanned into it. `ok` is false where Java
      throws. */
  method LoadRatios(lines: seq<string>, r: array?<Option<Ratio>>) returns (res: array<Option<Ratio>>, ok: bool)
    modifies r
    ensures r == null || r.Length < SlotCount ==> fresh(res) && res.Length == SlotCount
    ensures r != null && r.Length >= SlotCount ==> res == r
    ensures ok <==> Scan(old(StartSlots(r)), lines).Filled?
    ensures ok ==> res[..SlotCount] == Scan(old(StartSlots(r)), lines).slots
    ensures r != null && r.Length >= SlotCount ==> res[SlotCount..] == old(r[SlotCount..])
  {
    if r == null || r.Length < SlotCount {
      res := new Option<Ratio>[SlotCount](_ => None);
      assert res[..SlotCount] == EmptySlots;
    } else {
      res := r;
    }
    ghost var start := res[..SlotCount];
    assert start == old(StartSlots(r));
    ghost var tail := res[SlotCount..];
    var i := 0;
    while i < |lines|
      invariant 0 <= i <= |lines|
      invariant res.Length >= SlotCount
      invariant Scan(start, lines) == Scan(res[..SlotCount], lines[i..])
      invariant res[SlotCount..] == tail
    {
      var line := lines[i];
      ghost var before := res[..SlotCount];
      assert lines[i..][0] == line && lines[i..][1..] == lines[i + 1..];
      if Contains(line, SmallTag) {
        var parsed := ExtractRatio(line);
        if parsed.None? {
          ScanMalformedStep(before, lines[i..]);
          ok := false;
          return;
        }
        var k := PutInFirstFree(res, parsed.value);
        if k < SlotCount {
          ScanFillStep(before, lines[i..], k);
          assert res[..SlotCount] == before[k := parsed];
          if k == SlotCount - 1 {
            ok := true;
            return;
          }
        } else {
          ScanFullStep(before, lines[i..]);
        }
      } else {
        ScanPlainStep(before, lines[i..]);
      }
      i := i + 1;
    }
    ok := true;
  }
}
