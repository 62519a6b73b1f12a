/** The memory unit as the control unit sees it: a partial map from
    physical address to a word and its meta bit.  Only `fetch` is
    modelled; an address outside the map is `NotMapped`. */
module Memory {
  import opened Outcomes
  import opened Words

  datatype MemoryOpFailure = NotMapped | ReadOnly

  /** `MetaBitChange`: whether a fetch also sets the word's meta bit. */
  datatype MetaBitChange = NoMetaChange | SetMetaBit

  datatype Cell = Cell(word: Word36, meta: bool)

  datatype MemoryUnit = MemoryUnit(cells: map<int, Cell>)

  datatype Fetched = Fetched(result: Result<Word36, MemoryOpFailure>, mem: MemoryUnit)

  predicate Mapped(m: MemoryUnit, addr: int) {
    addr in m.cells
  }

  /** `MemoryUnit::fetch`: the word at `addr`, or `NotMapped`.  A fetch
      never fails with `ReadOnly`, changes no word, and touches only the
      meta bit of the word it reads. */
  function Fetch(m: MemoryUnit, addr: int, meta: MetaBitChange): (r: Fetched)
    ensures r.result.Ok? <==> Mapped(m, addr)
    ensures r.result.Err? ==> r.result.error == NotMapped && r.mem == m
    ensures r.result.Ok? ==> r.result.value == m.cells[addr].word
    ensures r.mem.cells.Keys == m.cells.Keys
    ensures forall a :: a in m.cells ==> r.mem.cells[a].word == m.cells[a].word
    ensures forall a :: a in m.cells && a != addr ==> r.mem.cells[a] == m.cells[a]
    ensures Mapped(m, addr) ==> r.mem.cells[addr].meta == (meta == SetMetaBit || m.cells[addr].meta)
  {
    if addr !in m.cells then Fetched(Err(NotMapped), m)
    else
      var c := m.cells[addr];
      var c' := if meta == SetMetaBit then c.(meta := true) else c;
      Fetched(Ok(c.word), MemoryUnit(m.cells[addr := c']))
  }
}
