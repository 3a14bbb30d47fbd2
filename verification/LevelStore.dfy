/** The level store a book is instantiated with: the choice between the three
    stores that the book's template parameter makes. */
module LevelStore {
  import opened Levels
  import opened SimpleLevels
  import opened WindowedLevels

  datatype Kind = ByMap | ByVector | ByWindow

  datatype Store = MapStore(tree: MapLevels) | FlatStore(flat: FlatLevels) | WindowStore(win: WindowedLevels)
  {
    function Obj(): object {
      match this
      case MapStore(s) => s
      case FlatStore(s) => s
      case WindowStore(s) => s
    }

    function KindOf(): Kind {
      match this
      case MapStore(_) => ByMap
      case FlatStore(_) => ByVector
      case WindowStore(_) => ByWindow
    }

    function High(): bool {
      match this
      case MapStore(s) => s.high
      case FlatStore(s) => s.high
      case WindowStore(s) => s.high
    }

    /** The levels the store stands for. */
    ghost function Contents(): LevelMap reads Obj() {
      match this
      case MapStore(s) => s.m
      case FlatStore(s) => s.contents
      case WindowStore(s) => s.contents
    }

    ghost predicate Valid() reads Obj() {
      && NoZero(Contents())
      && (this.FlatStore? ==> flat.Valid())
      && (this.WindowStore? ==> win.Valid())
    }

    method IncLevel(p: Price, q: Qty)
      requires Valid() && p >= 0 && q > 0
      requires At(Contents(), p) + q < TWO32
      modifies Obj()
      ensures Valid()
      ensures Contents() == Inc(old(Contents()), p, q)
    {
      match this
      case MapStore(s) => s.IncLevel(p, q);
      case FlatStore(s) => s.IncLevel(p, q);
      case WindowStore(s) => s.IncLevel(p, q);
    }

    method DecLevel(p: Price, q: Qty)
      requires Valid()
      modifies Obj()
      ensures Valid()
      ensures Contents() == Dec(old(Contents()), p, q)
    {
      match this
      case MapStore(s) => s.DecLevel(p, q);
      case FlatStore(s) => s.DecLevel(p, q);
      case WindowStore(s) => s.DecLevel(p, q);
    }

    method Best() returns (r: Quote)
      requires Valid()
      ensures r == BestQuote(High(), Contents())
    {
      match this
      case MapStore(s) => r := s.Best();
      case FlatStore(s) => r := s.Best();
      case WindowStore(s) => r := s.Best();
    }

    method QtyAt(p: Price) returns (q: Qty)
      requires Valid()
      ensures q == At(Contents(), p)
    {
      match this
      case MapStore(s) => q := At(s.m, p);
      case FlatStore(s) => q := s.QtyAt(p);
      case WindowStore(s) => q := s.QtyAt(p);
    }

    method Size() returns (n: nat)
      requires Valid()
      ensures n == |Contents()|
    {
      match this
      case MapStore(s) => n := |s.m|;
      case FlatStore(s) => n := s.Size();
      case WindowStore(s) => n := s.Size();
    }

    method Top(n: nat) returns (out: Rows)
      requires Valid()
      ensures out == Take(Ladder(High(), Contents()), n)
    {
      match this
      case MapStore(s) => out := s.Top(n);
      case FlatStore(s) => out := s.Top(n);
      case WindowStore(s) => out := s.Top(n);
    }
  }

  method NewStore(kind: Kind, high: bool) returns (s: Store)
    ensures s.Valid() && fresh(s.Obj())
    ensures s.High() == high && s.Contents() == map[] && s.KindOf() == kind
    ensures kind == ByWindow ==> s.win.window == 0x1_0000
  {
    match kind
    case ByMap =>
      var t := new MapLevels(high);
      s := MapStore(t);
    case ByVector =>
      var t := new FlatLevels(high);
      s := FlatStore(t);
    case ByWindow =>
      var t := new WindowedLevels(high, K_WINDOW);
      s := WindowStore(t);
  }
}
