/** A reader for printed arrays of strings and NULLs, and the proof that it undoes the printer of
    internal/types/array.go: the nested list comes back, and nothing past it is touched. */
module ArrayReaders {
  import opened Bytes
  import opened Escape
  import opened Rows
  import opened RowReaders
  import opened Arrays

  // A JSON array of strings, nulls and such arrays, or a single one.
  function ReadNest(b: bytes): (r: Option<(Nest, bytes)>)
    ensures r.Some? ==> |r.value.1| < |b|
    decreases |b|, 0
  {
    if b == [] then None
    else if b[0] != OPEN_BRACKET then
      var v := ReadValue(b);
      if v.None? then None else Some((Item(v.value.0), v.value.1))
    else if |b| > 1 && b[1] == CLOSE_BRACKET then Some((List([]), b[2..]))
    else
      var items := ReadItems(b[1..]);
      if items.None? then None else Some((List(items.value.0), items.value.1))
  }

  // Comma-separated entries up to the closing bracket.
  function ReadItems(b: bytes): (r: Option<(seq<Nest>, bytes)>)
    ensures r.Some? ==> |r.value.1| < |b|
    decreases |b|, 1
  {
    var first := ReadNest(b);
    if first.None? || first.value.1 == [] then None
    else
      var (item, rest) := first.value;
      if rest[0] == CLOSE_BRACKET then Some(([item], rest[1..]))
      else if rest[0] != COMMA then None
      else
        var more := ReadItems(rest[1..]);
        if more.None? then None else Some(([item] + more.value.0, more.value.1))
  }

  // ---- The entries, from the front ----

  function Following(items: seq<Nest>): bytes
  {
    if items == [] then [] else [COMMA] + Text(items[0], StringText) + Following(items[1..])
  }

  lemma {:induction false} FollowingSnoc(items: seq<Nest>, item: Nest)
    ensures Following(items + [item]) == Following(items) + ([COMMA] + Text(item, StringText))
  {
    hide Text;
    if items == [] {
      assert items + [item] == [item] && [item][1..] == [];
    } else {
      assert (items + [item])[1..] == items[1..] + [item];
      FollowingSnoc(items[1..], item);
    }
  }

  lemma {:induction false} ItemsFromFront(items: seq<Nest>)
    requires items != []
    ensures ItemsText(items, StringText) == Text(items[0], StringText) + Following(items[1..])
    decreases |items|
  {
    hide Text;
    var n := |items| - 1;
    if n == 0 {
      assert items[1..] == [];
    } else {
      ItemsFromFront(items[..n]);
      assert items[1..] == items[..n][1..] + [items[n]];
      FollowingSnoc(items[..n][1..], items[n]);
    }
  }

  // ---- Reading back ----

  // A printed entry starts with a bracket, a quote or an n.
  lemma TextStart(nest: Nest)
    ensures var t := Text(nest, StringText); |t| > 0 && t[0] != CLOSE_BRACKET && (t[0] == OPEN_BRACKET <==> nest.List?)
  {
    hide Escaped, ItemsText;
  }

  lemma ListShape(items: seq<Nest>, rest: bytes)
    ensures Text(List(items), StringText) + rest == [OPEN_BRACKET] + (ItemsText(items, StringText) + ([CLOSE_BRACKET] + rest))
  {
    hide ItemsText;
  }

  /** Any nested list, ragged ones included, reads back from its text, stopping exactly at its end. */
  lemma {:induction false} NestReadsBack(nest: Nest, rest: bytes)
    ensures ReadNest(Text(nest, StringText) + rest) == Some((nest, rest))
    decreases nest
  {
    var b := Text(nest, StringText) + rest;
    TextStart(nest);
    assert b[0] == Text(nest, StringText)[0];
    match nest
    case Item(cell) =>
      ValueReadsBack(cell, rest);
      hide ReadValue, ReadItems;
    case List(items) =>
      ListShape(items, rest);
      if items == [] {
        assert b == [OPEN_BRACKET] + ([] + ([CLOSE_BRACKET] + rest));
        assert b[2..] == rest;
      } else {
        var inner := ItemsText(items, StringText) + ([CLOSE_BRACKET] + rest);
        assert b[1..] == inner;
        ItemsFromFront(items);
        TextStart(items[0]);
        assert b[1] == Text(items[0], StringText)[0];
        ItemsReadBack(items, rest);
        hide ReadItems, ItemsText, Text;
      }
  }

  lemma ReadItemsStep(b: bytes, item: Nest, after: bytes)
    requires ReadNest(b) == Some((item, after)) && after != []
    ensures after[0] == CLOSE_BRACKET ==> ReadItems(b) == Some(([item], after[1..]))
    ensures after[0] == COMMA && ReadItems(after[1..]).Some? ==>
              ReadItems(b) == Some(([item] + ReadItems(after[1..]).value.0, ReadItems(after[1..]).value.1))
  {
    hide ReadNest;
  }

  // What follows the first entry: the closing bracket, or a comma and the other entries.
  lemma AfterFirst(items: seq<Nest>, end: bytes)
    requires items != []
    ensures ItemsText(items, StringText) + end == Text(items[0], StringText) + (Following(items[1..]) + end)
    ensures |items| == 1 ==> Following(items[1..]) + end == end
    ensures |items| > 1 ==> Following(items[1..]) + end == [COMMA] + (ItemsText(items[1..], StringText) + end)
  {
    hide ItemsText, Text, Following;
    ItemsFromFront(items);
    NoneFollow(end);
    if |items| > 1 {
      var more := items[1..];
      ItemsFromFront(more);
      NextFollows(more);
      AssocFour([COMMA], Text(more[0], StringText), Following(more[1..]), end);
    } else {
      assert items[1..] == [];
    }
    Assoc(Text(items[0], StringText), Following(items[1..]), end);
  }

  lemma NoneFollow(end: bytes)
    ensures Following([]) + end == end
  {
  }

  lemma NextFollows(items: seq<Nest>)
    requires items != []
    ensures Following(items) == [COMMA] + Text(items[0], StringText) + Following(items[1..])
  {
  }

  lemma {:induction false} ItemsReadBack(items: seq<Nest>, rest: bytes)
    requires items != []
    ensures ReadItems(ItemsText(items, StringText) + ([CLOSE_BRACKET] + rest)) == Some((items, rest))
    decreases items
  {
    hide ReadNest, ReadItems, ItemsText, Text, Following;
    var end := [CLOSE_BRACKET] + rest;
    var after := Following(items[1..]) + end;
    AfterFirst(items, end);
    NestReadsBack(items[0], after);
    if |items| > 1 {
      assert after[1..] == ItemsText(items[1..], StringText) + end;
      ItemsReadBack(items[1..], rest);
      assert [items[0]] + items[1..] == items;
    } else {
      assert after[1..] == rest && [items[0]] == items;
    }
    ReadItemsStep(Text(items[0], StringText) + after, items[0], after);
  }

  /** So a printed array of any rank determines its dimensions' entries: the reader finds at every
      index the element at its row-major position. */
  lemma ArrayReadsBack(dims: seq<nat>, cells: seq<Cell>, index: seq<nat>, rest: bytes)
    requires |cells| == Product(dims) && InRange(dims, index)
    ensures var read := ReadNest(Text(Nested(dims, cells), StringText) + rest);
            read.Some? && read.value.1 == rest && At(read.value.0, index) == Some(cells[Flat(dims, index)])
  {
    NestReadsBack(Nested(dims, cells), rest);
    EntryAtIndex(dims, cells, index);
    hide ReadNest, Text, Nested, At, Flat;
  }

  /** And from the wire: the array the server sends for these cells is printed as text that reads
      back as them. */
  lemma WireArrayReadsBack(flags: int, oid: int, dims: seq<nat>, bounds: seq<int>, cells: seq<Cell>, rest: bytes)
    requires |bounds| == |dims| && 0 < |dims| < 0x8000_0000 && |cells| == Product(dims) && Sendable(cells)
    requires forall i :: 0 <= i < |dims| ==> dims[i] < 0x8000_0000
    ensures var raw := WireArray(flags, oid, dims, bounds, cells);
            var read := Loose(raw[12 + 8 * |dims|..], Product(dims));
            && HeaderOf(raw) == Dims(dims) && read.Some?
            && ReadNest(Text(Nested(dims, read.value.0), StringText) + rest) == Some((Nested(dims, cells), rest))
  {
    WireArrayReads(flags, oid, dims, bounds, cells);
    hide WireArray, HeaderOf, Loose, Product, ReadNest, Text, TakeCells;
    NestReadsBack(Nested(dims, cells), rest);
  }
}
