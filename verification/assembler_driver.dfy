/** Layout helpers of the TX-2 assembler driver
    (assembler/src/asmlib/driver.rs): where each manuscript block goes in
    memory, the de-duplicated symbol list, line and column of a character
    position, the manuscript-to-directive conversion and the final pass
    that turns a directive into binary chunks.

    The symbol table is not part of this model: symbol lookup, the offset
    arithmetic `offset_from_origin`, the default origin and the value of
    an instruction are given as an oracle. */
module AssemblerDriver {
  import opened Outcomes
  import opened Words

  type SymbolName = string

  datatype Span = Span(start: nat, end: nat)

  datatype Origin =
    | Literal(span: Span, address: Addr)
    | Symbolic(span: Span, name: SymbolName)

  /** An instruction of the manuscript; its value is computed by the
      oracle once the symbol table is final. */
  datatype ProgramInstruction = ProgramInstruction(span: Span, text: string)

  datatype Statement =
    | Instruction(inst: ProgramInstruction)
    | Assignment(span: Span, name: SymbolName)

  datatype ManuscriptBlock = ManuscriptBlock(origin: Option<Origin>, statements: seq<Statement>)

  /** `PUNCH`, with the program's entry point if one was given. */
  datatype PunchCommand = PunchCommand(address: Option<Addr>)

  datatype SourceFile = SourceFile(blocks: seq<ManuscriptBlock>, punch: Option<PunchCommand>)

  /** What the driver asks of the symbol table and of the address
      arithmetic it does not define itself. */
  datatype Oracle = Oracle(
    lookupFinal: (SymbolName, nat) -> Option<Word36>,   // value of a symbol used as the origin of a block
    offsetFromOrigin: (Addr, nat) -> Option<Addr>,      // origin plus a word count, None past the end of memory
    defaultAddress: Addr)                               // `Origin::default_address`

  // ---------------------------------------------------------------------
  // Manuscript to directive

  /** The instructions of a block in order, assignments dropped. */
  function Instructions(statements: seq<Statement>): (r: seq<ProgramInstruction>)
    ensures |r| <= |statements|
    ensures forall i :: 0 <= i < |r| ==> Instruction(r[i]) in statements
    ensures (forall i :: 0 <= i < |statements| ==> statements[i].Assignment?) ==> r == []
  {
    if |statements| == 0 then []
    else
      var rest := Instructions(statements[1..]);
      if statements[0].Instruction? then [statements[0].inst] + rest else rest
  }

  /** No instruction statement of a block is dropped. */
  lemma {:induction false} InstructionsKeepAll(statements: seq<Statement>)
    ensures forall i :: 0 <= i < |statements| && statements[i].Instruction? ==> statements[i].inst in Instructions(statements)
    decreases |statements|
  {
    if |statements| > 0 {
      InstructionsKeepAll(statements[1..]);
      assert forall i :: 1 <= i < |statements| ==> statements[i] == statements[1..][i - 1];
    }
  }

  /** Instruction filtering distributes over concatenation, so no
      instruction is lost or reordered. */
  lemma {:induction false} InstructionsAppend(a: seq<Statement>, b: seq<Statement>)
    ensures Instructions(a + b) == Instructions(a) + Instructions(b)
    decreases |a|
  {
    if |a| > 0 {
      assert (a + b)[0] == a[0];
      assert (a + b)[1..] == a[1..] + b;
      InstructionsAppend(a[1..], b);
      if a[0].Instruction? {
        assert Instructions(a + b) == [a[0].inst] + (Instructions(a[1..]) + Instructions(b));
      } else {
        assert Instructions(a + b) == Instructions(a[1..]) + Instructions(b);
      }
    } else {
      assert a + b == b;
    }
  }

  /** `instruction_count` of a manuscript block: its number of
      instructions. */
  function InstructionCount(block: ManuscriptBlock): nat {
    |Instructions(block.statements)|
  }

  datatype DirectiveBlock = DirectiveBlock(origin: Option<Origin>, location: Option<Addr>, items: seq<ProgramInstruction>)

  datatype Directive = Directive(blocks: seq<DirectiveBlock>, entryPoint: Option<Addr>)

  /** Where a block is located before symbols are resolved: known for a
      literal origin or no origin at all, unknown for a symbolic one. */
  function Location(origin: Option<Origin>, defaultAddress: Addr): (r: Option<Addr>)
    ensures r.None? <==> origin.Some? && origin.value.Symbolic?
    ensures origin.Some? && origin.value.Literal? ==> r == Some(origin.value.address)
    ensures origin.None? ==> r == Some(defaultAddress)
  {
    match origin
    case None => Some(defaultAddress)
    case Some(Literal(_, address)) => Some(address)
    case Some(Symbolic(_, _)) => None
  }

  function ConvertBlock(block: ManuscriptBlock, defaultAddress: Addr): DirectiveBlock {
    DirectiveBlock(block.origin, Location(block.origin, defaultAddress), Instructions(block.statements))
  }

  function ConvertBlocks(blocks: seq<ManuscriptBlock>, defaultAddress: Addr): (r: seq<DirectiveBlock>)
    ensures |r| == |blocks|
    ensures forall i :: 0 <= i < |blocks| ==> r[i] == ConvertBlock(blocks[i], defaultAddress)
  {
    if |blocks| == 0 then [] else [ConvertBlock(blocks[0], defaultAddress)] + ConvertBlocks(blocks[1..], defaultAddress)
  }

  /** `convert_source_file_to_directive`: one directive block per
      manuscript block, empty ones included so that block numbers stay
      the same; the entry point is the address of `PUNCH`, if it has one. */
  function ConvertSourceFileToDirective(source: SourceFile, defaultAddress: Addr): (d: Directive)
    ensures |d.blocks| == |source.blocks|
    ensures forall i :: 0 <= i < |source.blocks| ==>
      && d.blocks[i].origin == source.blocks[i].origin
      && d.blocks[i].location == Location(source.blocks[i].origin, defaultAddress)
      && |d.blocks[i].items| == InstructionCount(source.blocks[i])
      && d.blocks[i].items == Instructions(source.blocks[i].statements)
    ensures d.entryPoint.Some? <==> source.punch.Some? && source.punch.value.address.Some?
    ensures d.entryPoint.Some? ==> d.entryPoint == source.punch.value.address
  {
    var entry := if source.punch.Some? then source.punch.value.address else None;
    Directive(ConvertBlocks(source.blocks, defaultAddress), entry)
  }

  // ---------------------------------------------------------------------
  // Block origins

  /** `origin_as_address`: a literal origin is its own address; a symbolic
      one is the right half of the symbol's value, falling back to the
      next free address and then to the default origin when the symbol
      has no final value.  The name is reported only for symbolic
      origins. */
  function OriginAsAddress(origin: Origin, blockNumber: nat, oracle: Oracle, nextAddress: Option<Addr>)
    : (r: (Option<SymbolName>, Addr))
    ensures r.0.Some? <==> origin.Symbolic?
    ensures origin.Literal? ==> r.1 == origin.address
    ensures origin.Symbolic? ==> r.0 == Some(origin.name)
    ensures origin.Symbolic? && oracle.lookupFinal(origin.name, blockNumber).Some? ==>
      r.1 == RightHalf(oracle.lookupFinal(origin.name, blockNumber).value)
    ensures origin.Symbolic? && oracle.lookupFinal(origin.name, blockNumber).None? ==>
      r.1 == nextAddress.GetOr(oracle.defaultAddress)
  {
    match origin
    case Literal(_, address) => (None, address)
    case Symbolic(_, name) =>
      match oracle.lookupFinal(name, blockNumber)
      case Some(value) => (Some(name), RightHalf(value))
      case None => (Some(name), nextAddress.GetOr(oracle.defaultAddress))
  }

  /** The base of a block in `calculate_block_origins`: its origin, or,
      without one, the next free address (the default origin for the
      first block). */
  function BlockBase(block: ManuscriptBlock, blockNumber: nat, oracle: Oracle, nextAddress: Option<Addr>)
    : (r: (Option<SymbolName>, Addr))
    ensures block.origin.None? ==> r == (None, nextAddress.GetOr(oracle.defaultAddress))
  {
    match block.origin
    case Some(origin) => OriginAsAddress(origin, blockNumber, oracle, nextAddress)
    case None => (None, nextAddress.GetOr(oracle.defaultAddress))
  }

  datatype MachineLimitExceededFailure = BlockTooLarge(blockNumber: nat, blockOrigin: Addr, offset: nat)

  type BlockOrigins = seq<(Option<SymbolName>, Addr)>

  /** The end of block i (its base plus its size). */
  function EndOf(blocks: seq<ManuscriptBlock>, oracle: Oracle, origins: BlockOrigins, i: nat): Option<Addr>
    requires i < |origins| <= |blocks|
  {
    oracle.offsetFromOrigin(origins[i].1, InstructionCount(blocks[i]))
  }

  /** Every block placed so far fits in memory. */
  predicate AllFit(blocks: seq<ManuscriptBlock>, oracle: Oracle, origins: BlockOrigins) {
    |origins| <= |blocks| && forall i :: 0 <= i < |origins| ==> EndOf(blocks, oracle, origins, i).Some?
  }

  function MaxAddr(a: Addr, b: Addr): (r: Addr)
    ensures a <= r && b <= r && (r == a || r == b)
  {
    if a < b then b else a
  }

  /** The next free address after the first n blocks: the largest of
      their ends, None before any block. */
  function MaxEnd(blocks: seq<ManuscriptBlock>, oracle: Oracle, origins: BlockOrigins, n: nat): (r: Option<Addr>)
    requires AllFit(blocks, oracle, origins) && n <= |origins|
    ensures r.None? <==> n == 0
    ensures forall i :: 0 <= i < n ==> EndOf(blocks, oracle, origins, i).value <= r.value
  {
    if n == 0 then None
    else
      var end := EndOf(blocks, oracle, origins, n - 1).value;
      match MaxEnd(blocks, oracle, origins, n - 1)
      case None => Some(end)
      case Some(m) => Some(MaxAddr(m, end))
  }

  /** The next free address only depends on the blocks already placed. */
  lemma {:induction false} MaxEndPrefix(blocks: seq<ManuscriptBlock>, oracle: Oracle, a: BlockOrigins, b: BlockOrigins, n: nat)
    requires AllFit(blocks, oracle, a) && AllFit(blocks, oracle, b)
    requires n <= |a| && n <= |b| && a[..n] == b[..n]
    ensures MaxEnd(blocks, oracle, a, n) == MaxEnd(blocks, oracle, b, n)
  {
    if n > 0 {
      assert a[n - 1] == a[..n][n - 1] == b[..n][n - 1] == b[n - 1];
      assert a[..n - 1] == a[..n][..n - 1];
      assert b[..n - 1] == b[..n][..n - 1];
      MaxEndPrefix(blocks, oracle, a, b, n - 1);
    }
  }

  /** The next free address never decreases from one block to the next. */
  lemma {:induction false} MaxEndMonotone(blocks: seq<ManuscriptBlock>, oracle: Oracle, origins: BlockOrigins, m: nat, n: nat)
    requires AllFit(blocks, oracle, origins) && 0 < m <= n <= |origins|
    ensures MaxEnd(blocks, oracle, origins, m).value <= MaxEnd(blocks, oracle, origins, n).value
    decreases n - m
  {
    if m < n {
      MaxEndMonotone(blocks, oracle, origins, m, n - 1);
    }
  }

  /** Block i was placed by the rule of `calculate_block_origins`. */
  predicate PlacedAsCalculated(blocks: seq<ManuscriptBlock>, oracle: Oracle, origins: BlockOrigins, i: nat)
    requires AllFit(blocks, oracle, origins) && i < |origins|
  {
    origins[i] == BlockBase(blocks[i], i, oracle, MaxEnd(blocks, oracle, origins, i))
  }

  /** Placing the next block where `calculate_block_origins` puts it keeps
      every block fitting and placed by the rule, and moves the next free
      address to the larger of the old one and the new block's end. */
  lemma {:induction false} PlaceNext(blocks: seq<ManuscriptBlock>, oracle: Oracle, origins: BlockOrigins,
                  base: (Option<SymbolName>, Addr), end: Addr)
    requires |origins| < |blocks| && AllFit(blocks, oracle, origins)
    requires forall j :: 0 <= j < |origins| ==> PlacedAsCalculated(blocks, oracle, origins, j)
    requires base == BlockBase(blocks[|origins|], |origins|, oracle, MaxEnd(blocks, oracle, origins, |origins|))
    requires oracle.offsetFromOrigin(base.1, InstructionCount(blocks[|origins|])) == Some(end)
    ensures AllFit(blocks, oracle, origins + [base])
    ensures var next := MaxEnd(blocks, oracle, origins, |origins|);
      MaxEnd(blocks, oracle, origins + [base], |origins| + 1)
      == if next.Some? then Some(MaxAddr(next.value, end)) else Some(end)
    ensures forall j :: 0 <= j <= |origins| ==> PlacedAsCalculated(blocks, oracle, origins + [base], j)
  {
    var i := |origins|;
    var extended := origins + [base];
    assert forall j :: 0 <= j < i ==> extended[j] == origins[j];
    assert forall j :: 0 <= j < i ==> EndOf(blocks, oracle, extended, j) == EndOf(blocks, oracle, origins, j);
    assert EndOf(blocks, oracle, extended, i) == Some(end);
    assert AllFit(blocks, oracle, extended);
    forall j | 0 <= j <= i
      ensures MaxEnd(blocks, oracle, extended, j) == MaxEnd(blocks, oracle, origins, j)
    {
      assert extended[..j] == origins[..j];
      MaxEndPrefix(blocks, oracle, extended, origins, j);
    }
    forall j | 0 <= j <= i
      ensures PlacedAsCalculated(blocks, oracle, extended, j)
    {
      if j < i {
        assert PlacedAsCalculated(blocks, oracle, origins, j);
      }
    }
  }

  /** `calculate_block_origins`: place each block at its origin (or at the
      next free address), and keep the next free address as the largest
      block end so far; a block that runs past the end of memory stops
      the calculation with `BlockTooLarge`. */
  method CalculateBlockOrigins(source: SourceFile, oracle: Oracle)
    returns (r: Result<(BlockOrigins, Option<Addr>), MachineLimitExceededFailure>, ghost placed: BlockOrigins)
    ensures r.Ok? ==> placed == r.value.0
    ensures r.Ok? ==>
      && |r.value.0| == |source.blocks|
      && AllFit(source.blocks, oracle, r.value.0)
      && r.value.1 == MaxEnd(source.blocks, oracle, r.value.0, |source.blocks|)
      && (forall i :: 0 <= i < |source.blocks| ==> PlacedAsCalculated(source.blocks, oracle, r.value.0, i))
    ensures r.Err? ==>
      && r.error.blockNumber < |source.blocks|
      && r.error.offset == InstructionCount(source.blocks[r.error.blockNumber])
      && oracle.offsetFromOrigin(r.error.blockOrigin, r.error.offset).None?
    ensures r.Err? ==>
      && |placed| == r.error.blockNumber
      && AllFit(source.blocks, oracle, placed)
      && (forall i :: 0 <= i < |placed| ==> PlacedAsCalculated(source.blocks, oracle, placed, i))
      && r.error.blockOrigin
         == BlockBase(source.blocks[r.error.blockNumber], r.error.blockNumber, oracle,
                      MaxEnd(source.blocks, oracle, placed, r.error.blockNumber)).1
  {
    var blocks := source.blocks;
    var origins: BlockOrigins := [];
    var next: Option<Addr> := None;
    for i := 0 to |blocks|
      invariant |origins| == i && AllFit(blocks, oracle, origins)
      invariant next == MaxEnd(blocks, oracle, origins, i)
      invariant forall j :: 0 <= j < i ==> PlacedAsCalculated(blocks, oracle, origins, j)
    {
      var base := BlockBase(blocks[i], i, oracle, next);
      var count := InstructionCount(blocks[i]);
      match oracle.offsetFromOrigin(base.1, count)
      case None =>
        return Err(BlockTooLarge(i, base.1, count)), origins;
      case Some(end) =>
        PlaceNext(blocks, oracle, origins, base, end);
        next := if next.Some? then Some(MaxAddr(next.value, end)) else Some(end);
        origins := origins + [base];
    }
    r, placed := Ok((origins, next)), origins;
  }

  // ---------------------------------------------------------------------
  // Symbols in program order

  function Names(items: seq<(SymbolName, Span)>): set<SymbolName> {
    set i | 0 <= i < |items| :: items[i].0
  }

  /** Reference definition: each item whose symbol did not occur earlier,
      in input order. */
  function FirstOccurrences(items: seq<(SymbolName, Span)>): (r: seq<(SymbolName, Span)>)
    ensures Names(r) == Names(items)
    ensures forall a, b :: 0 <= a < b < |r| ==> r[a].0 != r[b].0
    decreases |items|
  {
    if |items| == 0 then []
    else
      var front := items[..|items| - 1];
      var last := items[|items| - 1];
      var r := FirstOccurrences(front);
      assert Names(items) == Names(front) + {last.0} by {
        assert forall i :: 0 <= i < |front| ==> front[i] == items[i];
      }
      if last.0 in Names(front) then r
      else
        var r' := r + [last];
        assert Names(r') == Names(r) + {last.0} by {
          assert forall i :: 0 <= i < |r| ==> r'[i] == r[i];
          assert r'[|r|] == last;
        }
        r'
  }

  /** Every kept item is the first occurrence of its symbol, span
      included. */
  lemma {:induction false} FirstOccurrencesAreFirst(items: seq<(SymbolName, Span)>, k: nat)
    requires k < |FirstOccurrences(items)|
    ensures exists i :: 0 <= i < |items| && items[i] == FirstOccurrences(items)[k]
                        && forall j :: 0 <= j < i ==> items[j].0 != items[i].0
    decreases |items|
  {
    var front := items[..|items| - 1];
    var last := items[|items| - 1];
    var r := FirstOccurrences(front);
    if k < |r| {
      FirstOccurrencesAreFirst(front, k);
      var i :| 0 <= i < |front| && front[i] == r[k] && forall j :: 0 <= j < i ==> front[j].0 != front[i].0;
      assert items[i] == front[i];
      assert forall j :: 0 <= j < i ==> items[j] == front[j];
    } else {
      assert last.0 !in Names(front);
      var i := |items| - 1;
      assert forall j :: 0 <= j < i ==> items[j].0 != items[i].0 by {
        forall j | 0 <= j < i ensures items[j].0 != items[i].0 {
          assert items[j] == front[j];
        }
      }
    }
  }

  /** Item i carries the first occurrence of its symbol. */
  predicate IsFirst(items: seq<(SymbolName, Span)>, i: int) {
    0 <= i < |items| && forall j :: 0 <= j < i ==> items[j].0 != items[i].0
  }

  /** The positions of the first occurrences: strictly increasing, and
      exactly the positions that are first occurrences. */
  function FirstIndices(items: seq<(SymbolName, Span)>): (idx: seq<nat>)
    ensures forall c :: 0 <= c < |idx| ==> IsFirst(items, idx[c])
    ensures forall a, b :: 0 <= a < b < |idx| ==> idx[a] < idx[b]
    ensures forall i :: IsFirst(items, i) ==> i in idx
    decreases |items|
  {
    if |items| == 0 then []
    else
      var front := items[..|items| - 1];
      var r := FirstIndices(front);
      assert forall i :: 0 <= i < |front| ==> (IsFirst(front, i) <==> IsFirst(items, i)) by {
        assert forall j :: 0 <= j < |front| ==> front[j] == items[j];
      }
      if IsFirst(items, |items| - 1) then r + [|items| - 1] else r
  }

  /** The de-duplicated symbols are the items at the first-occurrence
      positions, in increasing position order. */
  lemma {:induction false} FirstOccurrencesInOrder(items: seq<(SymbolName, Span)>)
    ensures |FirstOccurrences(items)| == |FirstIndices(items)|
    ensures forall c :: 0 <= c < |FirstIndices(items)| ==> FirstOccurrences(items)[c] == items[FirstIndices(items)[c]]
    decreases |items|
  {
    if |items| > 0 {
      var front := items[..|items| - 1];
      var last := items[|items| - 1];
      FirstOccurrencesInOrder(front);
      assert forall j :: 0 <= j < |front| ==> front[j] == items[j];
      assert forall i :: 0 <= i < |front| ==> (IsFirst(front, i) <==> IsFirst(items, i));
      assert last.0 in Names(front) <==> !IsFirst(items, |items| - 1) by {
        if last.0 in Names(front) {
          var j :| 0 <= j < |front| && front[j].0 == last.0;
          assert items[j].0 == last.0;
        }
      }
    }
  }

  /** `unique_symbols_in_order`: keep the first occurrence of each symbol,
      with its span, in input order. */
  method UniqueSymbolsInOrder(items: seq<(SymbolName, Span)>) returns (result: seq<(SymbolName, Span)>)
    ensures result == FirstOccurrences(items)
    ensures Names(result) == Names(items)
    ensures forall a, b :: 0 <= a < b < |result| ==> result[a].0 != result[b].0
    ensures |result| == |FirstIndices(items)|
    ensures forall c :: 0 <= c < |result| ==> result[c] == items[FirstIndices(items)[c]]
  {
    var seen: set<SymbolName> := {};
    result := [];
    for i := 0 to |items|
      invariant result == FirstOccurrences(items[..i])
      invariant seen == Names(items[..i])
    {
      assert items[..i + 1][..i] == items[..i];
      var (sym, span) := items[i];
      assert Names(items[..i + 1]) == seen + {sym} by {
        assert forall j :: 0 <= j < i ==> items[..i + 1][j] == items[..i][j];
      }
      if sym !in seen {
        seen := seen + {sym};
        result := result + [(sym, span)];
      }
    }
    assert items[..|items|] == items;
    FirstOccurrencesInOrder(items);
  }

  // ---------------------------------------------------------------------
  // Line and column of a position

  function NewlineCount(s: string): (n: nat)
    ensures n <= |s|
  {
    if |s| == 0 then 0 else NewlineCount(s[..|s| - 1]) + (if s[|s| - 1] == '\n' then 1 else 0)
  }

  /** The column just after `s`: 1 at the start of a line, one more for
      each character since the last newline. */
  function ColumnAfter(s: string): (c: nat)
    ensures 1 <= c <= |s| + 1
    ensures c == 1 <==> |s| == 0 || s[|s| - 1] == '\n'
  {
    if |s| == 0 || s[|s| - 1] == '\n' then 1 else ColumnAfter(s[..|s| - 1]) + 1
  }

  /** On the first line the column is the position plus one. */
  lemma {:induction false} ColumnOnFirstLine(s: string)
    requires NewlineCount(s) == 0
    ensures ColumnAfter(s) == |s| + 1
  {
    if |s| > 0 {
      ColumnOnFirstLine(s[..|s| - 1]);
    }
  }

  /** `pos_line_column`: the 1-based line and column of character `pos`,
      an error when `pos` is not a character of `s`. */
  method PosLineColumn(s: string, pos: nat) returns (r: Result<(nat, nat), ()>)
    ensures r.Ok? <==> pos < |s|
    ensures r.Ok? ==> r.value == (1 + NewlineCount(s[..pos]), ColumnAfter(s[..pos]))
  {
    var line := 1;
    var column := 1;
    for i := 0 to |s|
      invariant i <= pos
      invariant line == 1 + NewlineCount(s[..i])
      invariant column == ColumnAfter(s[..i])
    {
      if i == pos {
        return Ok((line, column));
      }
      assert s[..i + 1][..i] == s[..i];
      if s[i] == '\n' {
        column := 1;
        line := line + 1;
      } else {
        column := column + 1;
      }
    }
    return Err(());
  }

  // ---------------------------------------------------------------------
  // Binary output

  datatype BinaryChunk = BinaryChunk(address: Addr, words: seq<Word36>)

  datatype Binary = Binary(entryPoint: Option<Addr>, chunks: seq<BinaryChunk>)

  datatype AssemblerFailure = InternalError(blockNumber: nat)

  function ChunkWords(chunks: seq<BinaryChunk>): nat {
    if |chunks| == 0 then 0 else |chunks[0].words| + ChunkWords(chunks[1..])
  }

  /** `Binary::count_words`: the total length of the chunks. */
  function CountWords(binary: Binary): (n: nat)
    ensures binary.chunks == [] ==> n == 0
  {
    ChunkWords(binary.chunks)
  }

  lemma {:induction false} ChunkWordsAppend(a: seq<BinaryChunk>, b: seq<BinaryChunk>)
    ensures ChunkWords(a + b) == ChunkWords(a) + ChunkWords(b)
    decreases |a|
  {
    if |a| > 0 {
      assert (a + b)[0] == a[0];
      assert (a + b)[1..] == a[1..] + b;
      ChunkWordsAppend(a[1..], b);
      assert ChunkWords(a + b) == |a[0].words| + ChunkWords(a[1..] + b);
    } else {
      assert a + b == b;
    }
  }

  /** The number of instructions in blocks k and after. */
  function ItemsFrom(blocks: seq<DirectiveBlock>, k: nat): nat
    requires k <= |blocks|
    decreases |blocks| - k
  {
    if k == |blocks| then 0 else |blocks[k].items| + ItemsFrom(blocks, k + 1)
  }

  /** The numbers of blocks k and after that hold instructions. */
  function NonEmptyFrom(blocks: seq<DirectiveBlock>, k: nat): (r: seq<nat>)
    requires k <= |blocks|
    ensures forall c :: 0 <= c < |r| ==> k <= r[c] < |blocks| && |blocks[r[c]].items| > 0
    decreases |blocks| - k
  {
    if k == |blocks| then []
    else if |blocks[k].items| > 0 then [k] + NonEmptyFrom(blocks, k + 1)
    else NonEmptyFrom(blocks, k + 1)
  }

  /** The numbers NonEmptyFrom lists are strictly increasing, and every
      block from k on with instructions is among them. */
  lemma {:induction false} NonEmptyFromOrdered(blocks: seq<DirectiveBlock>, k: nat)
    requires k <= |blocks|
    ensures forall a, b :: 0 <= a < b < |NonEmptyFrom(blocks, k)| ==> NonEmptyFrom(blocks, k)[a] < NonEmptyFrom(blocks, k)[b]
    ensures forall j :: k <= j < |blocks| && |blocks[j].items| > 0 ==> j in NonEmptyFrom(blocks, k)
    decreases |blocks| - k
  {
    if k < |blocks| {
      NonEmptyFromOrdered(blocks, k + 1);
      var rest := NonEmptyFrom(blocks, k + 1);
      if |blocks[k].items| > 0 {
        var r := [k] + rest;
        assert NonEmptyFrom(blocks, k) == r;
        forall a, b | 0 <= a < b < |r| ensures r[a] < r[b] {
          assert r[b] == rest[b - 1] && k + 1 <= rest[b - 1];
          if 0 < a {
            assert r[a] == rest[a - 1];
          }
        }
      } else {
        assert NonEmptyFrom(blocks, k) == rest;
      }
    }
  }

  predicate MissingOrigin(blocks: seq<DirectiveBlock>, origins: map<nat, Addr>, j: nat) {
    j < |blocks| && j !in origins
  }

  /** The words a block is punched as: each instruction's value. */
  function BlockWords(block: DirectiveBlock, value: ProgramInstruction -> Word36): (ws: seq<Word36>)
    ensures |ws| == |block.items|
    ensures forall w :: 0 <= w < |ws| ==> ws[w] == value(block.items[w])
  {
    seq(|block.items|, w requires 0 <= w < |block.items| => value(block.items[w]))
  }

  /** `chunks` lays out blocks k and after: one chunk per block with
      instructions, in order, at that block's origin and holding its
      words. */
  predicate Layout(blocks: seq<DirectiveBlock>, origins: map<nat, Addr>,
                   value: ProgramInstruction -> Word36, k: nat, chunks: seq<BinaryChunk>)
    requires k <= |blocks|
  {
    var numbers := NonEmptyFrom(blocks, k);
    && |chunks| == |numbers|
    && ChunkWords(chunks) == ItemsFrom(blocks, k)
    && forall c :: 0 <= c < |chunks| ==>
         && numbers[c] in origins
         && chunks[c].address == origins[numbers[c]]
         && |chunks[c].words| == |blocks[numbers[c]].items| > 0
         && forall w :: 0 <= w < |chunks[c].words| ==> chunks[c].words[w] == value(blocks[numbers[c]].items[w])
  }

  /** A block without instructions adds nothing to the layout. */
  lemma LayoutSkip(blocks: seq<DirectiveBlock>, origins: map<nat, Addr>,
                   value: ProgramInstruction -> Word36, k: nat, rest: seq<BinaryChunk>)
    requires k < |blocks| && |blocks[k].items| == 0
    requires Layout(blocks, origins, value, k + 1, rest)
    ensures Layout(blocks, origins, value, k, rest)
  {
  }

  /** A block with instructions and an origin puts its chunk in front. */
  lemma LayoutCons(blocks: seq<DirectiveBlock>, origins: map<nat, Addr>,
                   value: ProgramInstruction -> Word36, k: nat, rest: seq<BinaryChunk>)
    requires k < |blocks| && k in origins && |blocks[k].items| > 0
    requires Layout(blocks, origins, value, k + 1, rest)
    ensures Layout(blocks, origins, value, k, [BinaryChunk(origins[k], BlockWords(blocks[k], value))] + rest)
  {
    var r := [BinaryChunk(origins[k], BlockWords(blocks[k], value))] + rest;
    assert r[1..] == rest;
    var numbers := NonEmptyFrom(blocks, k);
    assert numbers == [k] + NonEmptyFrom(blocks, k + 1);
    forall c | 1 <= c < |r|
      ensures r[c] == rest[c - 1] && numbers[c] == NonEmptyFrom(blocks, k + 1)[c - 1]
    {
    }
  }

  /** The chunks for blocks k and after; fails at the first block the
      final symbol table has no origin for, empty or not. */
  function ChunksFrom(blocks: seq<DirectiveBlock>, origins: map<nat, Addr>,
                      value: ProgramInstruction -> Word36, k: nat)
    : (r: Result<seq<BinaryChunk>, AssemblerFailure>)
    requires k <= |blocks|
    ensures r.Err? <==> exists j :: k <= j && MissingOrigin(blocks, origins, j)
    ensures r.Err? ==> k <= r.error.blockNumber && MissingOrigin(blocks, origins, r.error.blockNumber)
                       && forall j :: k <= j < r.error.blockNumber ==> j in origins
    ensures r.Ok? ==> forall j :: k <= j < |blocks| ==> j in origins
    ensures r.Ok? ==> Layout(blocks, origins, value, k, r.value)
    decreases |blocks| - k
  {
    if k == |blocks| then Ok([])
    else if k !in origins then
      assert MissingOrigin(blocks, origins, k);
      Err(InternalError(k))
    else
      match ChunksFrom(blocks, origins, value, k + 1)
      case Err(e) => Err(e)
      case Ok(rest) => Ok(ChunkStep(blocks, origins, value, k, rest))
  }

  /** Block k in front of the chunks of the blocks after it: a chunk at
      its origin if it has instructions, nothing otherwise. */
  function ChunkStep(blocks: seq<DirectiveBlock>, origins: map<nat, Addr>,
                     value: ProgramInstruction -> Word36, k: nat, rest: seq<BinaryChunk>)
    : (r: seq<BinaryChunk>)
    requires k < |blocks| && k in origins
    requires Layout(blocks, origins, value, k + 1, rest)
    ensures Layout(blocks, origins, value, k, r)
  {
    if |blocks[k].items| == 0 then
      LayoutSkip(blocks, origins, value, k, rest);
      rest
    else
      LayoutCons(blocks, origins, value, k, rest);
      [BinaryChunk(origins[k], BlockWords(blocks[k], value))] + rest
  }

  /** `assemble_pass3`: the entry point is copied, each block with
      instructions becomes a chunk at its block's origin, empty blocks are
      left out, and a block without an origin is an internal error. */
  function AssemblePass3(directive: Directive, origins: map<nat, Addr>, value: ProgramInstruction -> Word36)
    : (r: Result<Binary, AssemblerFailure>)
    ensures r.Err? <==> exists j :: MissingOrigin(directive.blocks, origins, j)
    ensures r.Ok? ==> r.value.entryPoint == directive.entryPoint
    ensures r.Ok? ==> CountWords(r.value) == ItemsFrom(directive.blocks, 0)
    ensures r.Ok? ==> forall c :: 0 <= c < |r.value.chunks| ==> |r.value.chunks[c].words| > 0
    ensures r.Ok? ==> Layout(directive.blocks, origins, value, 0, r.value.chunks)
  {
    match ChunksFrom(directive.blocks, origins, value, 0)
    case Err(e) => Err(e)
    case Ok(chunks) => Ok(Binary(directive.entryPoint, chunks))
  }

  function TotalInstructions(blocks: seq<ManuscriptBlock>): nat {
    if |blocks| == 0 then 0 else InstructionCount(blocks[0]) + TotalInstructions(blocks[1..])
  }

  lemma {:induction false} ItemsFromConverted(blocks: seq<ManuscriptBlock>, defaultAddress: Addr, k: nat)
    requires k <= |blocks|
    ensures ItemsFrom(ConvertBlocks(blocks, defaultAddress), k) == TotalInstructions(blocks[k..])
    decreases |blocks| - k
  {
    if k < |blocks| {
      ItemsFromConverted(blocks, defaultAddress, k + 1);
      assert blocks[k..][1..] == blocks[k + 1..];
    }
  }

  /** From manuscript to binary, every instruction becomes exactly one
      word of output. */
  lemma AssembledWordsAreInstructions(source: SourceFile, defaultAddress: Addr, origins: map<nat, Addr>,
                                      value: ProgramInstruction -> Word36)
    requires AssemblePass3(ConvertSourceFileToDirective(source, defaultAddress), origins, value).Ok?
    ensures CountWords(AssemblePass3(ConvertSourceFileToDirective(source, defaultAddress), origins, value).value)
            == TotalInstructions(source.blocks)
  {
    ItemsFromConverted(source.blocks, defaultAddress, 0);
    assert source.blocks[0..] == source.blocks;
  }
}
