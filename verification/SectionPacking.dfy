/**
 Packing the parts of many sections into chunks of about `target` words: a chunk is closed when it
 is full or when the next part no longer fits, and for no other reason.
 */
module SectionPacking {
  import opened Wrappers
  import opened Text
  import opened Sequences
  import opened HardSplit

  /** Between `chunk` and a chunk that begins with `part` there had to be a cut. */
  predicate CutUnavoidable(target: nat, hardMax: nat, chunk: string, part: string) {
    |Words(chunk)| >= hardMax || |Words(chunk)| + |Words(part)| > target
  }

  /** `parts` may stand in one chunk: one part alone, or several of no more than `target` words, where the
      chunk was not full before the last of them. */
  predicate Fits(target: nat, hardMax: nat, parts: seq<string>) {
    && parts != []
    && 1 <= |WordsOf(parts)| <= Max(target, hardMax)
    && (|parts| > 1 ==> |WordsOf(parts)| <= target && |WordsOf(parts[..|parts| - 1])| < hardMax)
  }

  /** `parts` are what one chunk is made of. */
  predicate MadeOf(target: nat, hardMax: nat, chunk: string, parts: seq<string>) {
    && Fits(target, hardMax, parts)
    && chunk == Strip(Join(parts, "\n\n"))
    && Words(chunk) == WordsOf(parts)
  }

  predicate PackedFrom(target: nat, hardMax: nat, chunks: seq<string>, groups: seq<seq<string>>) {
    && |groups| == |chunks|
    && (forall i :: 0 <= i < |chunks| ==> MadeOf(target, hardMax, chunks[i], groups[i]))
    && (forall i :: 0 <= i < |chunks| - 1 ==> CutUnavoidable(target, hardMax, chunks[i], groups[i + 1][0]))
  }

  /** The parts that go into the chunks: those of every section, as it is split. */
  ghost predicate PartsOfSections(sections: seq<string>, hardMax: nat, lower: nat, partsOf: seq<seq<string>>) {
    && |partsOf| == |sections|
    && forall i :: 0 <= i < |sections| ==> HardParts(sections[i], hardMax, lower, partsOf[i])
  }

  /** A chunk that begins with `part` may follow the finished ones. */
  predicate MayOpen(target: nat, hardMax: nat, chunks: seq<string>, part: string) {
    chunks != [] ==> CutUnavoidable(target, hardMax, chunks[|chunks| - 1], part)
  }

  lemma CloseChunk(target: nat, hardMax: nat, chunks: seq<string>, groups: seq<seq<string>>, current: seq<string>)
    requires PackedFrom(target, hardMax, chunks, groups)
    requires Fits(target, hardMax, current) && MayOpen(target, hardMax, chunks, current[0])
    ensures var chunk := Strip(Join(current, "\n\n"));
            && Words(chunk) == WordsOf(current)
            && Concat(groups + [current]) == Concat(groups) + current
            && PackedFrom(target, hardMax, chunks + [chunk], groups + [current])
  {
    hide Words, Strip, Join, WordsOf, Concat;
    var chunk := Strip(Join(current, "\n\n"));
    LineBreaksAreBlank();
    JoinWords(current, "\n\n");
    StripWords(Join(current, "\n\n"));
    ConcatSnoc(groups, current);
    var cs, gs := chunks + [chunk], groups + [current];
    forall i | 0 <= i < |cs|
      ensures MadeOf(target, hardMax, cs[i], gs[i])
    {
    }
    forall i | 0 <= i < |cs| - 1
      ensures CutUnavoidable(target, hardMax, cs[i], gs[i + 1][0])
    {
      if i < |chunks| - 1 {
        assert CutUnavoidable(target, hardMax, chunks[i], groups[i + 1][0]);
      }
    }
  }

  lemma LineBreaksAreBlank()
    ensures Blank("\n\n")
  {
  }

  /** `current` waits to become a chunk: it is not full yet, and the cut in front of it is unavoidable. */
  ghost predicate Open(target: nat, hardMax: nat, packed: seq<string>, groups: seq<seq<string>>, current: seq<string>) {
    && PackedFrom(target, hardMax, packed, groups)
    && |WordsOf(current)| < hardMax
    && (current != [] ==> Fits(target, hardMax, current) && MayOpen(target, hardMax, packed, current[0]))
    && (current == [] && packed != [] ==> |Words(packed[|packed| - 1])| >= hardMax)
  }

  /** `part` may be added to `current`. */
  ghost predicate CanTake(target: nat, hardMax: nat, packed: seq<string>, groups: seq<seq<string>>,
                          current: seq<string>, part: string)
  {
    && PackedFrom(target, hardMax, packed, groups)
    && 1 <= |Words(part)| <= hardMax
    && (current != [] ==> |WordsOf(current)| < hardMax && |WordsOf(current)| + |Words(part)| <= target)
    && MayOpen(target, hardMax, packed, if current == [] then part else current[0])
  }

  lemma FitsAsItIs(target: nat, hardMax: nat, packed: seq<string>, groups: seq<seq<string>>,
                   current: seq<string>, part: string)
    requires Open(target, hardMax, packed, groups, current) && 1 <= |Words(part)| <= hardMax
    requires current != [] ==> |WordsOf(current)| + |Words(part)| <= target
    ensures CanTake(target, hardMax, packed, groups, current, part)
  {
    hide Words, PackedFrom, WordsOf;
  }

  lemma FitsAfterClosing(target: nat, hardMax: nat, packed: seq<string>, groups: seq<seq<string>>,
                         current: seq<string>, part: string)
    requires Open(target, hardMax, packed, groups, current) && 1 <= |Words(part)| <= hardMax
    requires current != [] && |WordsOf(current)| + |Words(part)| > target
    ensures var chunk := Strip(Join(current, "\n\n"));
            && CanTake(target, hardMax, packed + [chunk], groups + [current], [], part)
            && Concat(groups + [current]) == Concat(groups) + current
  {
    hide Words, PackedFrom, Strip, Join, WordsOf, Concat;
    CloseChunk(target, hardMax, packed, groups, current);
  }

  lemma TakePart(target: nat, hardMax: nat, packed: seq<string>, groups: seq<seq<string>>,
                 current: seq<string>, part: string)
    requires CanTake(target, hardMax, packed, groups, current, part)
    ensures var taken := current + [part];
            && |WordsOf(taken)| == |WordsOf(current)| + |Words(part)|
            && Fits(target, hardMax, taken) && MayOpen(target, hardMax, packed, taken[0])
            && PackedFrom(target, hardMax, packed, groups)
  {
    hide Words, PackedFrom, WordsOf;
    WordsOfSnoc(current, part);
    WordsOfEmpty();
    assert (current + [part])[..|current|] == current;
  }

  /** Packs the parts of all sections, every part once and in order. Chunks are within the limits, and
      every boundary is one that could not be avoided. */
  method PackSections(sections: seq<string>, target: nat, hardMax: nat, lower: nat)
    returns (packed: seq<string>, ghost groups: seq<seq<string>>, ghost partsOf: seq<seq<string>>)
    requires 1 <= lower <= hardMax
    ensures WordsOf(packed) == WordsOf(sections)
    ensures forall i :: 0 <= i < |packed| ==> 1 <= |Words(packed[i])| <= Max(target, hardMax)
    ensures PartsOfSections(sections, hardMax, lower, partsOf)
    ensures Concat(groups) == Concat(partsOf) && PackedFrom(target, hardMax, packed, groups)
  {
    hide Words, Strip, Join, PackedFrom, MayOpen, CanTake, HardParts, Concat;
    packed, groups, partsOf := [], [], [];
    var current: seq<string> := [];
    var currentWords := 0;
    NothingPacked(target, hardMax);
    for i := 0 to |sections|
      invariant Open(target, hardMax, packed, groups, current)
      invariant currentWords == |WordsOf(current)|
      invariant PartsOfSections(sections[..i], hardMax, lower, partsOf)
      invariant Concat(groups) + current == Concat(partsOf)
    {
      var parts := HardSplitText(sections[i], hardMax, lower);
      PartsHaveWords(sections[i], hardMax, lower, parts);
      packed, groups, current, currentWords :=
        TakeParts(parts, target, hardMax, packed, groups, current, currentWords);
      ConcatSnoc(partsOf, parts);
      partsOf := partsOf + [parts];
    }
    assert sections[..|sections|] == sections;
    if current != [] {
      CloseChunk(target, hardMax, packed, groups, current);
      packed, groups := packed + [Strip(Join(current, "\n\n"))], groups + [current];
    }
    ChunkSizes(target, hardMax, packed, groups);
    SameWords(sections, hardMax, lower, partsOf, target, packed, groups);
  }

  lemma PartsHaveWords(section: string, hardMax: nat, lower: nat, parts: seq<string>)
    requires HardParts(section, hardMax, lower, parts)
    ensures forall i :: 0 <= i < |parts| ==> 1 <= |Words(parts[i])| <= hardMax
  {
    hide Explained;
  }

  lemma NothingPacked(target: nat, hardMax: nat)
    requires 1 <= hardMax
    ensures Open(target, hardMax, [], [], []) && |WordsOf([])| == 0
    ensures Concat<string>([]) == []
  {
  }

  lemma ChunkSizes(target: nat, hardMax: nat, packed: seq<string>, groups: seq<seq<string>>)
    requires PackedFrom(target, hardMax, packed, groups)
    ensures forall i :: 0 <= i < |packed| ==> 1 <= |Words(packed[i])| <= Max(target, hardMax)
  {
    hide Words, Strip, Join, WordsOf;
    forall i | 0 <= i < |packed|
      ensures 1 <= |Words(packed[i])| <= Max(target, hardMax)
    {
      assert MadeOf(target, hardMax, packed[i], groups[i]);
    }
  }

  lemma {:induction false} WordsOfParts(sections: seq<string>, partsOf: seq<seq<string>>)
    requires |partsOf| == |sections| && forall i :: 0 <= i < |sections| ==> WordsOf(partsOf[i]) == Words(sections[i])
    ensures WordsOf(Concat(partsOf)) == WordsOf(sections)
    decreases |sections|
  {
    hide Words, WordsOf;
    if sections == [] {
      WordsOfEmpty();
    } else {
      var n := |sections| - 1;
      WordsOfParts(sections[..n], partsOf[..n]);
      WordsOfConcat(Concat(partsOf[..n]), partsOf[n]);
      assert sections == sections[..n] + [sections[n]];
      WordsOfSnoc(sections[..n], sections[n]);
    }
  }

  lemma SameWords(sections: seq<string>, hardMax: nat, lower: nat, partsOf: seq<seq<string>>,
                  target: nat, packed: seq<string>, groups: seq<seq<string>>)
    requires PartsOfSections(sections, hardMax, lower, partsOf) && Concat(groups) == Concat(partsOf)
    requires PackedFrom(target, hardMax, packed, groups)
    ensures WordsOf(packed) == WordsOf(sections)
  {
    hide Words, WordsOf, Concat, Fits, Strip, Join, Explained;
    forall i | 0 <= i < |sections|
      ensures WordsOf(partsOf[i]) == Words(sections[i])
    {
      assert HardParts(sections[i], hardMax, lower, partsOf[i]);
    }
    forall i | 0 <= i < |packed|
      ensures WordsOf(groups[i]) == Words(packed[i])
    {
      assert MadeOf(target, hardMax, packed[i], groups[i]);
    }
    WordsOfParts(sections, partsOf);
    WordsOfParts(packed, groups);
  }

  /** The loop over the parts of one section. */
  method TakeParts(parts: seq<string>, target: nat, hardMax: nat, packed0: seq<string>, ghost groups0: seq<seq<string>>,
                   current0: seq<string>, currentWords0: nat)
    returns (packed: seq<string>, ghost groups: seq<seq<string>>, current: seq<string>, currentWords: nat)
    requires Open(target, hardMax, packed0, groups0, current0) && currentWords0 == |WordsOf(current0)|
    requires forall i :: 0 <= i < |parts| ==> 1 <= |Words(parts[i])| <= hardMax
    ensures Open(target, hardMax, packed, groups, current) && currentWords == |WordsOf(current)|
    ensures Concat(groups) + current == Concat(groups0) + current0 + parts
  {
    hide Words, Strip, Join, PackedFrom, MayOpen, CanTake, Open, Concat;
    packed, groups, current, currentWords := packed0, groups0, current0, currentWords0;
    for k := 0 to |parts|
      invariant Open(target, hardMax, packed, groups, current)
      invariant currentWords == |WordsOf(current)|
      invariant Concat(groups) + current == Concat(groups0) + current0 + parts[..k]
    {
      packed, groups, current, currentWords :=
        TakeOnePart(parts[k], target, hardMax, packed, groups, current, currentWords);
      assert parts[..k + 1] == parts[..k] + [parts[k]];
    }
    assert parts[..|parts|] == parts;
  }

  /** One part joins the chunk being packed; the chunk is closed before or after it, where it must be. */
  method TakeOnePart(part: string, target: nat, hardMax: nat, packed0: seq<string>, ghost groups0: seq<seq<string>>,
                     current0: seq<string>, currentWords0: nat)
    returns (packed: seq<string>, ghost groups: seq<seq<string>>, current: seq<string>, currentWords: nat)
    requires Open(target, hardMax, packed0, groups0, current0) && currentWords0 == |WordsOf(current0)|
    requires 1 <= |Words(part)| <= hardMax
    ensures Open(target, hardMax, packed, groups, current) && currentWords == |WordsOf(current)|
    ensures Concat(groups) + current == Concat(groups0) + current0 + [part]
  {
    hide Words, Strip, Join, PackedFrom, MayOpen, CanTake, Open, Concat, WordsOf, Fits;
    WordsOfEmpty();
    packed, groups, current, currentWords := packed0, groups0, current0, currentWords0;
    var partWords := |Words(part)|;
    if current != [] && currentWords + partWords > target {
      FitsAfterClosing(target, hardMax, packed, groups, current, part);
      packed, groups := packed + [Strip(Join(current, "\n\n"))], groups + [current];
      current, currentWords := [], 0;
    } else {
      FitsAsItIs(target, hardMax, packed, groups, current, part);
    }
    assert Concat(groups) + current == Concat(groups0) + current0;
    TakePart(target, hardMax, packed, groups, current, part);
    assert Concat(groups) + (current + [part]) == Concat(groups0) + current0 + [part];
    current, currentWords := current + [part], currentWords + partWords;
    if currentWords >= hardMax {
      CloseChunk(target, hardMax, packed, groups, current);
      ClosedFull(target, hardMax, packed + [Strip(Join(current, "\n\n"))], groups + [current]);
      packed, groups := packed + [Strip(Join(current, "\n\n"))], groups + [current];
      current, currentWords := [], 0;
    } else {
      StillOpen(target, hardMax, packed, groups, current);
    }
  }

  lemma ClosedFull(target: nat, hardMax: nat, packed: seq<string>, groups: seq<seq<string>>)
    requires PackedFrom(target, hardMax, packed, groups) && 1 <= hardMax
    requires packed != [] && |Words(packed[|packed| - 1])| >= hardMax
    ensures Open(target, hardMax, packed, groups, [])
  {
  }

  lemma StillOpen(target: nat, hardMax: nat, packed: seq<string>, groups: seq<seq<string>>, current: seq<string>)
    requires PackedFrom(target, hardMax, packed, groups)
    requires Fits(target, hardMax, current) && |WordsOf(current)| < hardMax &&
              MayOpen(target, hardMax, packed, current[0])
    ensures Open(target, hardMax, packed, groups, current)
  {
  }

  // ----- there is only one way

  lemma MoreParts(parts: seq<string>, n: nat)
    requires n <= |parts|
    ensures |WordsOf(parts[..n])| <= |WordsOf(parts)|
  {
    hide WordsOf;
    WordsOfConcat(parts[..n], parts[n..]);
    assert parts == parts[..n] + parts[n..];
  }

  /** A chunk that goes on behind another one's cut shows that the cut could have been avoided. */
  lemma FirstChunkIsNoShorter(target: nat, hardMax: nat, longer: seq<string>, parts: seq<string>, chunk: string)
    requires Fits(target, hardMax, longer) && MadeOf(target, hardMax, chunk, parts)
    requires |parts| < |longer| && parts == longer[..|parts|]
    ensures !CutUnavoidable(target, hardMax, chunk, longer[|parts|])
  {
    hide Words, WordsOf, Strip, Join;
    var n := |parts|;
    MoreParts(longer, n + 1);
    MoreParts(longer[..|longer| - 1], n);
    assert longer[..|longer| - 1][..n] == parts;
    assert longer[..n + 1] == parts + [longer[n]];
    WordsOfSnoc(parts, longer[n]);
  }

  lemma FirstOfGroups(groups: seq<seq<string>>)
    requires groups != []
    ensures Concat(groups) == groups[0] + Concat(groups[1..])
  {
    assert groups == [groups[0]] + groups[1..];
    ConcatCons(groups[0], groups[1..]);
  }

  lemma NoGroups(groups: seq<seq<string>>)
    requires Concat(groups) == [] && forall i :: 0 <= i < |groups| ==> groups[i] != []
    ensures groups == []
  {
  }

  lemma SamePrefix<T>(a: seq<T>, x: seq<T>, b: seq<T>, y: seq<T>)
    requires a + x == b + y && |a| <= |b|
    ensures a == b[..|a|] && (|a| < |b| ==> (a + x)[|a|] == b[|a|] && |a + x| > |a|)
    ensures |a| == |b| ==> a == b && x == y
  {
    assert a == (a + x)[..|a|] && b[..|a|] == (b + y)[..|a|];
    if |a| == |b| {
      assert x == (a + x)[|a|..] && y == (b + y)[|b|..];
    }
  }

  /** What stands behind the first chunk begins with the first part of the second. */
  lemma SecondPart(target: nat, hardMax: nat, chunks: seq<string>, groups: seq<seq<string>>)
    requires PackedFrom(target, hardMax, chunks, groups) && groups != [] && |Concat(groups)| > |groups[0]|
    ensures CutUnavoidable(target, hardMax, chunks[0], Concat(groups)[|groups[0]|])
  {
    hide Words, WordsOf, CutUnavoidable, Concat, Join, Strip;
    FirstOfGroups(groups);
    if |groups| == 1 {
      NoneLeft(groups);
    } else {
      FirstOfGroups(groups[1..]);
      assert MadeOf(target, hardMax, chunks[1], groups[1]);
      assert CutUnavoidable(target, hardMax, chunks[0], groups[0 + 1][0]);
    }
  }

  lemma NoneLeft(groups: seq<seq<string>>)
    requires |groups| == 1
    ensures Concat(groups) == groups[0]
  {
    assert groups[..0] == [];
  }

  lemma SameFirstChunk(target: nat, hardMax: nat, chunks: seq<string>, groups: seq<seq<string>>,
                       others: seq<string>, grouped: seq<seq<string>>)
    requires PackedFrom(target, hardMax, chunks, groups) && PackedFrom(target, hardMax, others, grouped)
    requires Concat(groups) == Concat(grouped) && groups != [] && grouped != []
    ensures |groups[0]| >= |grouped[0]|
  {
    hide Words, WordsOf, CutUnavoidable, Concat, Join, Strip;
    if |groups[0]| < |grouped[0]| {
      FirstOfGroups(groups);
      FirstOfGroups(grouped);
      SamePrefix(groups[0], Concat(groups[1..]), grouped[0], Concat(grouped[1..]));
      SecondPart(target, hardMax, chunks, groups);
      NotShorter(target, hardMax, chunks, groups, others, grouped);
    }
  }

  lemma NotShorter(target: nat, hardMax: nat, chunks: seq<string>, groups: seq<seq<string>>,
                   others: seq<string>, grouped: seq<seq<string>>)
    requires PackedFrom(target, hardMax, chunks, groups) && PackedFrom(target, hardMax, others, grouped)
    requires groups != [] && grouped != [] && |groups[0]| < |grouped[0]| && groups[0] == grouped[0][..|groups[0]|]
    ensures !CutUnavoidable(target, hardMax, chunks[0], grouped[0][|groups[0]|])
  {
    hide Words, WordsOf, CutUnavoidable, Join, Strip, Fits;
    assert MadeOf(target, hardMax, chunks[0], groups[0]) && MadeOf(target, hardMax, others[0], grouped[0]);
    FirstChunkIsNoShorter(target, hardMax, grouped[0], groups[0], chunks[0]);
  }

  lemma PackedRest(target: nat, hardMax: nat, chunks: seq<string>, groups: seq<seq<string>>)
    requires PackedFrom(target, hardMax, chunks, groups) && groups != []
    ensures PackedFrom(target, hardMax, chunks[1..], groups[1..])
  {
    hide Words, WordsOf, CutUnavoidable, Join, Strip;
    forall i | 0 <= i < |groups|
      ensures groups[i] != []
    {
      assert MadeOf(target, hardMax, chunks[i], groups[i]);
    }
    forall i | 0 <= i < |chunks| - 2
      ensures CutUnavoidable(target, hardMax, chunks[1..][i], groups[1..][i + 1][0])
    {
      assert CutUnavoidable(target, hardMax, chunks[i + 1], groups[(i + 1) + 1][0]);
    }
  }

  /** The limits leave one way only to pack given parts: whatever is packed by these rules has the chunks that
      `PackSections` makes. */
  lemma {:induction false} PackingIsUnique(target: nat, hardMax: nat, chunks: seq<string>, groups: seq<seq<string>>,
                                           others: seq<string>, grouped: seq<seq<string>>)
    requires PackedFrom(target, hardMax, chunks, groups) && PackedFrom(target, hardMax, others, grouped)
    requires Concat(groups) == Concat(grouped)
    ensures groups == grouped && chunks == others
    decreases |groups|
  {
    hide Words, WordsOf, CutUnavoidable, Concat, Join, Strip;
    forall i | 0 <= i < |groups|
      ensures groups[i] != []
    {
      assert MadeOf(target, hardMax, chunks[i], groups[i]);
    }
    forall i | 0 <= i < |grouped|
      ensures grouped[i] != []
    {
      assert MadeOf(target, hardMax, others[i], grouped[i]);
    }
    if groups == [] || grouped == [] {
      NothingConcat();
      NoGroups(groups);
      NoGroups(grouped);
    } else {
      SameFirstChunk(target, hardMax, chunks, groups, others, grouped);
      SameFirstChunk(target, hardMax, others, grouped, chunks, groups);
      FirstOfGroups(groups);
      FirstOfGroups(grouped);
      SamePrefix(groups[0], Concat(groups[1..]), grouped[0], Concat(grouped[1..]));
      assert MadeOf(target, hardMax, chunks[0], groups[0]) && MadeOf(target, hardMax, others[0], grouped[0]);
      PackedRest(target, hardMax, chunks, groups);
      PackedRest(target, hardMax, others, grouped);
      PackingIsUnique(target, hardMax, chunks[1..], groups[1..], others[1..], grouped[1..]);
      assert groups == [groups[0]] + groups[1..] && grouped == [grouped[0]] + grouped[1..];
      assert chunks == [chunks[0]] + chunks[1..] && others == [others[0]] + others[1..];
    }
  }

  lemma NothingConcat()
    ensures Concat<string>([]) == []
  {
  }
}
