/** Routing of a multi-symbol feed to per-instrument books by stock locate. The
    book type and its apply are parameters: nothing here depends on them. */
module BookSet {
  import opened Prelude
  import opened Messages
  import opened Pipeline

  /** The value of a BookSet. */
  datatype Books<B> = Books(books: map<U16, B>, symbols: map<U16, seq<byte>>)

  const SPACE: byte := 32

  /** ITCH symbols are padded with spaces on the right. */
  function Trimmed(s: seq<byte>): seq<byte> {
    if s != [] && s[|s| - 1] == SPACE then Trimmed(s[..|s| - 1]) else s
  }

  method Trim(s: seq<byte>) returns (t: seq<byte>)
    ensures t == Trimmed(s)
    ensures t <= s && (t != [] ==> t[|t| - 1] != ' ' as int)
    ensures forall i :: |t| <= i < |s| ==> s[i] == ' ' as int
  {
    var n := |s|;
    assert s[..n] == s;
    while n > 0 && s[n - 1] == SPACE
      invariant 0 <= n <= |s|
      invariant Trimmed(s[..n]) == Trimmed(s)
      invariant forall i :: n <= i < |s| ==> s[i] == SPACE
    {
      assert s[..n][..n - 1] == s[..n - 1];
      n := n - 1;
    }
    t := s[..n];
  }

  predicate OrderAffecting(t: MsgType) {
    t in {AddOrder, AddOrderMpid, OrderExecuted, OrderExecutedWithPrice, OrderCancel, OrderDelete, OrderReplace}
  }

  function Get<B>(s: Books<B>, l: U16, blank: B): B {
    if l in s.books then s.books[l] else blank
  }

  function ApplySet<B>(apply: (B, Message) -> B, blank: B, s: Books<B>, m: Message): Books<B> {
    var l := m.locate;
    if m.typ == StockDirectory then
      Books(s.books[l := Get(s, l, blank)], s.symbols[l := Trimmed(m.stock)])
    else if OrderAffecting(m.typ) then
      s.(books := s.books[l := apply(Get(s, l, blank), m)])
    else s
  }

  function Lookup<V>(m: map<U16, V>, l: U16): Option<V> {
    if l in m then Some(m[l]) else None
  }

  /** The union of two sets where keys of the first win. */
  function Merge<B>(a: Books<B>, b: Books<B>): Books<B> {
    Books(b.books + a.books, b.symbols + a.symbols)
  }

  function Empty<B>(): Books<B> {
    Books(map[], map[])
  }

  /** apply as a value, for replaying. */
  function SetApply<B>(apply: (B, Message) -> B, blank: B): (Books<B>, Message) -> Books<B> {
    (s: Books<B>, m: Message) => ApplySet(apply, blank, s, m)
  }

  class BookSet<B> {
    const apply: (B, Message) -> B
    const blank: B
    var books: map<U16, B>
    var symbols: map<U16, seq<byte>>

    constructor (apply: (B, Message) -> B, blank: B)
      ensures this.apply == apply && this.blank == blank && View() == Empty()
    {
      this.apply, this.blank := apply, blank;
      books, symbols := map[], map[];
    }

    ghost function View(): Books<B> reads this {
      Books(books, symbols)
    }

    method Apply(m: Message)
      modifies this
      ensures View() == ApplySet(apply, blank, old(View()), m)
      ensures forall l: U16 :: l != m.locate ==> SlotAt(View(), l) == SlotAt(old(View()), l)
      ensures m.typ in {SystemEvent, Trade, CrossTrade, Unknown} ==> View() == old(View())
      ensures m.typ !in {SystemEvent, Trade, CrossTrade, Unknown, StockDirectory} ==>
                symbols == old(symbols) && Lookup(books, m.locate) == Some(apply(Lookup(old(books), m.locate).ValueOr(blank), m))
      ensures m.typ == StockDirectory ==> Lookup(symbols, m.locate) == Some(Trimmed(m.stock))
      ensures m.typ == StockDirectory ==> Lookup(books, m.locate) == Some(Lookup(old(books), m.locate).ValueOr(blank))
    {
      var l := m.locate;
      if m.typ == StockDirectory {
        var t := Trim(m.stock);
        symbols := symbols[l := t];
        if l !in books { books := books[l := blank]; }
        assert books == old(books)[l := Get(old(View()), l, blank)];
        return;
      }
      if OrderAffecting(m.typ) {
        var b := if l in books then books[l] else blank;
        books := books[l := apply(b, m)];
      }
    }

    method MergeFrom(other: BookSet<B>)
      requires other != this
      modifies this, other
      ensures forall l: U16 :: SlotAt(View(), l) == Prefer(SlotAt(old(View()), l), SlotAt(old(other.View()), l))
      ensures other.View() == Empty()
    {
      books := EmplaceAll(books, other.books);
      symbols := EmplaceAll(symbols, other.symbols);
      other.books := map[];
      other.symbols := map[];
    }
  }

  /** Emplace every entry of `from`, in any order: a key already present keeps its value. */
  method EmplaceAll<V>(into: map<U16, V>, from: map<U16, V>) returns (out: map<U16, V>)
    ensures forall l: U16 :: Lookup(out, l) == Lookup(into, l).Else(Lookup(from, l))
  {
    out := into;
    var rest := from.Keys;
    while rest != {}
      invariant rest <= from.Keys
      invariant forall l: U16 :: Lookup(out, l) == if l in rest then Lookup(into, l) else Lookup(into, l).Else(Lookup(from, l))
      decreases rest
    {
      assert (forall l :: l !in rest) ==> rest == {};
      var l :| l in rest;
      if l !in out {
        out := out[l := from[l]];
      }
      rest := rest - {l};
    }
  }

  // ---- one locate at a time ---------------------------------------------------

  /** Everything a set knows about one locate. */
  datatype Slot<B> = Slot(book: Option<B>, symbol: Option<seq<byte>>)

  function SlotAt<B>(s: Books<B>, l: U16): Slot<B> {
    Slot(Lookup(s.books, l), Lookup(s.symbols, l))
  }

  /** What a set knows first, completed by what another knows. */
  function Prefer<B>(a: Slot<B>, b: Slot<B>): Slot<B> {
    Slot(a.book.Else(b.book), a.symbol.Else(b.symbol))
  }

  function ApplySlot<B>(apply: (B, Message) -> B, blank: B, s: Slot<B>, m: Message): Slot<B> {
    var b := if s.book.Some? then s.book.value else blank;
    if m.typ == StockDirectory then Slot(Some(b), Some(Trimmed(m.stock)))
    else if OrderAffecting(m.typ) then s.(book := Some(apply(b, m)))
    else s
  }

  function SlotApply<B>(apply: (B, Message) -> B, blank: B): (Slot<B>, Message) -> Slot<B> {
    (s: Slot<B>, m: Message) => ApplySlot(apply, blank, s, m)
  }

  /** A message touches its own locate and no other. */
  lemma ApplyTouchesOne<B>(apply: (B, Message) -> B, blank: B, s: Books<B>, m: Message, l: U16)
    ensures SlotAt(ApplySet(apply, blank, s, m), l) ==
            if m.locate == l then ApplySlot(apply, blank, SlotAt(s, l), m) else SlotAt(s, l)
  {
  }

  lemma MergeSlot<B>(a: Books<B>, b: Books<B>, l: U16)
    ensures SlotAt(Merge(a, b), l) == Prefer(SlotAt(a, l), SlotAt(b, l))
  {
  }

  /** Two sets that agree on every locate are equal. */
  lemma SameSlots<B>(a: Books<B>, b: Books<B>)
    requires forall l: U16 :: SlotAt(a, l) == SlotAt(b, l)
    ensures a == b
  {
    assert forall l: U16 :: (l in a.books <==> l in b.books) && (l in a.books ==> a.books[l] == b.books[l]) by {
      forall l: U16 ensures (l in a.books <==> l in b.books) && (l in a.books ==> a.books[l] == b.books[l]) {
        assert SlotAt(a, l) == SlotAt(b, l);
      }
    }
    assert forall l: U16 :: (l in a.symbols <==> l in b.symbols) && (l in a.symbols ==> a.symbols[l] == b.symbols[l]) by {
      forall l: U16 ensures (l in a.symbols <==> l in b.symbols) && (l in a.symbols ==> a.symbols[l] == b.symbols[l]) {
        assert SlotAt(a, l) == SlotAt(b, l);
      }
    }
    SameMaps(a.books, b.books);
    SameMaps(a.symbols, b.symbols);
  }

  lemma SameMaps<V>(a: map<U16, V>, b: map<U16, V>)
    requires forall l: U16 :: (l in a <==> l in b) && (l in a ==> a[l] == b[l])
    ensures a == b
  {
    assert forall l: U16 :: l in a ==> l in b && a[l] == b[l];
    assert forall l: U16 :: l in b ==> l in a;
    assert a.Keys == b.Keys;
  }

  /** The two kinds of message that make a set know a locate. */
  predicate NamesOrMoves(m: Message) {
    m.typ !in {SystemEvent, Trade, CrossTrade, Unknown}
  }

  /** A replay into an empty set creates a book for exactly the locates that some directory
      entry or order message names, and a symbol for exactly those with a directory entry. */
  lemma {:induction false} KnownIff<B>(apply: (B, Message) -> B, blank: B, ms: seq<Message>, l: U16)
    ensures var s := Fold(SetApply(apply, blank), Empty(), ms);
            && (l in s.books <==> exists i :: 0 <= i < |ms| && ms[i].locate == l && NamesOrMoves(ms[i]))
            && (l in s.symbols <==> exists i :: 0 <= i < |ms| && ms[i].locate == l && ms[i].typ == StockDirectory)
  {
    if ms != [] {
      var n := |ms| - 1;
      KnownIff(apply, blank, ms[..n], l);
      assert forall i :: 0 <= i < n ==> ms[..n][i] == ms[i];
      assert forall i :: 0 <= i < |ms| ==> i == n || ms[i] == ms[..n][i];
    }
  }

  /** The messages of one locate, in order. */
  function OfLocate(ms: seq<Message>, l: U16): seq<Message> {
    if ms == [] then []
    else
      var n := |ms| - 1;
      OfLocate(ms[..n], l) + (if ms[n].locate == l then [ms[n]] else [])
  }

  /** After any run, what a set knows about a locate depends on that locate's
      messages alone. */
  lemma {:induction false} FoldOfLocate<B>(apply: (B, Message) -> B, blank: B, s: Books<B>, ms: seq<Message>, l: U16)
    ensures SlotAt(Fold(SetApply(apply, blank), s, ms), l) ==
            Fold(SlotApply(apply, blank), SlotAt(s, l), OfLocate(ms, l))
  {
    if ms != [] {
      var n := |ms| - 1;
      FoldOfLocate(apply, blank, s, ms[..n], l);
      var before := Fold(SetApply(apply, blank), s, ms[..n]);
      ApplyTouchesOne(apply, blank, before, ms[n], l);
      var prev := OfLocate(ms[..n], l);
      if ms[n].locate == l {
        assert OfLocate(ms, l)[..|prev|] == prev;
      } else {
        assert OfLocate(ms, l) == prev;
      }
    }
  }
}
