/** The monitor window's reader of that text, which cuts the last digit off every value. */
module MonitorWindow {
  import opened Strings
  import opened Numbers
  import opened MonitorList
  import opened Traffic

  const ULONG_SIZE := 0x1_0000_0000_0000_0000

  /** QString::toULong: the whole text is a number in range, or the result is zero. */
  function ToULong(s: string): (n: nat)
    ensures n < ULONG_SIZE
  {
    if s != "" && AllDigits(s) && Value(s) < ULONG_SIZE then Value(s) else 0
  }

  /** QString::replace by nothing. */
  function Without(s: string, w: string): string
    requires w != ""
    decreases |s|
  {
    if s == "" then "" else if StartsWith(s, w) then Without(s[|w|..], w) else [s[0]] + Without(s[1..], w)
  }

  /** QString::chop(1). */
  function Chopped(s: string): string {
    if s == "" then "" else s[..|s| - 1]
  }

  /** The window's counters of bytes read and written. */
  datatype Counters = Counters(read: nat, written: nat)

  /** The body of the loop; what is left of a piece with a W is looked at for an R as well. */
  function Count(c: Counters, piece: string): Counters {
    var w := StartsWith(piece, "W");
    var output := if w then Chopped(Without(piece, "W:")) else piece;
    var c1 := if w then c.(written := (c.written + ToULong(output)) % ULONG_SIZE) else c;
    if StartsWith(output, "R") then c1.(read := (c1.read + ToULong(Chopped(Without(output, "R:")))) % ULONG_SIZE)
    else c1
  }

  function CountAll(c: Counters, ps: seq<string>): Counters {
    if ps == [] then c else Count(CountAll(c, ps[..|ps| - 1]), ps[|ps| - 1])
  }

  // ---------------------------------------------------------------- What it adds up

  lemma {:induction false} NothingReplaced(s: string, w: string)
    requires |w| == 2 && w[0] !in s
    ensures Without(s, w) == s
    decreases |s|
  {
    if s != "" {
      assert s[0] in s && w == [w[0], w[1]];
      NothingReplaced(s[1..], w);
    }
  }

  lemma OpeningReplaced(w: string, s: string)
    requires |w| == 2 && w[0] !in s
    ensures Without(w + s, w) == s
  {
    assert (w + s)[..2] == w && (w + s)[2..] == s;
    NothingReplaced(s, w);
  }

  lemma DigitsOfNat(n: nat)
    ensures 'R' !in Decimal(n) && 'W' !in Decimal(n)
  {
    assert forall c :: c in Decimal(n) ==> IsDigit(c);
  }

  /** Without its last digit a number is a tenth. */
  lemma ChoppedTenth(n: nat)
    requires n <= LONG_MAX
    ensures ToULong(Chopped(Decimal(n))) == n / 10
  {
    if n >= 10 {
      assert Decimal(n)[..|Decimal(n)| - 1] == Decimal(n / 10);
      ValueOfDecimal(n / 10);
    } else {
      assert Chopped(Decimal(n)) == "";
    }
  }

  lemma CountTenth(c: Counters, m: Moved)
    requires Counted(m) && m.value >= 0
    ensures Count(c, PieceOf(m))
         == if m.func == MONITOR_READ then c.(read := (c.read + m.value / 10) % ULONG_SIZE)
            else c.(written := (c.written + m.value / 10) % ULONG_SIZE)
  {
    hide ToULong, Without, Decimal;
    var opening, d := if m.func == MONITOR_READ then "R:" else "W:", Decimal(m.value);
    DigitsOfNat(m.value);
    OpeningReplaced(opening, d);
    ChoppedTenth(m.value);
    var piece := PieceOf(m);
    assert piece == opening + d && piece[..1] == [opening[0]];
    assert "R" == ['R'] && "W" == ['W'] && "R:"[0] == 'R' && "W:"[0] == 'W';
    assert Chopped(d) != "" ==> Chopped(d)[..1] == [d[0]] && d[0] in d;
  }

  predicate Positive(ms: seq<Moved>) {
    forall m :: m in ms ==> Counted(m) && m.value >= 0
  }

  /** The sum of the values of one direction, each divided by d. */
  function Sum(ms: seq<Moved>, func: MonitorFn, d: nat): nat
    requires d > 0 && Positive(ms)
  {
    if ms == [] then 0
    else
      var last := ms[|ms| - 1];
      assert last in ms;
      Sum(ms[..|ms| - 1], func, d) + if last.func == func then last.value / d else 0
  }

  lemma AddLate(a: nat, b: nat)
    ensures (a % ULONG_SIZE + b) % ULONG_SIZE == (a + b) % ULONG_SIZE
  {
  }

  lemma {:induction false} CountTenths(ms: seq<Moved>)
    requires Positive(ms)
    ensures CountAll(Counters(0, 0), PiecesOf(ms))
         == Counters(Sum(ms, MONITOR_READ, 10) % ULONG_SIZE, Sum(ms, MONITOR_WRITE, 10) % ULONG_SIZE)
    decreases |ms|
  {
    hide Count, PieceOf;
    if ms != [] {
      var n := |ms| - 1;
      assert ms[n] in ms && PiecesOf(ms)[..n] == PiecesOf(ms[..n]);
      CountTenths(ms[..n]);
      CountTenth(CountAll(Counters(0, 0), PiecesOf(ms[..n])), ms[n]);
      AddLate(Sum(ms[..n], MONITOR_READ, 10), ms[n].value / 10);
      AddLate(Sum(ms[..n], MONITOR_WRITE, 10), ms[n].value / 10);
    }
  }

  /** What the window shows after the text for any values that are not negative: the sum of their tenths. */
  lemma WindowShowsTenths(ms: seq<Moved>)
    requires Positive(ms)
    ensures CountAll(Counters(0, 0), Pieces(TextOf(ms)))
         == Counters(Sum(ms, MONITOR_READ, 10) % ULONG_SIZE, Sum(ms, MONITOR_WRITE, 10) % ULONG_SIZE)
  {
    hide Counted, Pieces;
    PiecesOfText(ms);
    CountTenths(ms);
  }

  lemma {:induction false} SumsCompared(ms: seq<Moved>, func: MonitorFn)
    requires Positive(ms)
    ensures Sum(ms, func, 10) <= Sum(ms, func, 1)
    ensures Sum(ms, func, 10) == Sum(ms, func, 1) <==> forall m :: m in ms && m.func == func ==> m.value == 0
    decreases |ms|
  {
    if ms != [] {
      var n := |ms| - 1;
      assert ms[n] in ms && forall m :: m in ms <==> m in ms[..n] || m == ms[n];
      SumsCompared(ms[..n], func);
    }
  }

  /** So, short of a wrap-around, the window is right exactly when nothing was moved. */
  lemma WindowRightWhen(ms: seq<Moved>)
    requires Positive(ms)
    requires Sum(ms, MONITOR_READ, 1) < ULONG_SIZE && Sum(ms, MONITOR_WRITE, 1) < ULONG_SIZE
    ensures CountAll(Counters(0, 0), Pieces(TextOf(ms)))
         == Counters(Sum(ms, MONITOR_READ, 1), Sum(ms, MONITOR_WRITE, 1))
       <==> forall m :: m in ms ==> m.value == 0
  {
    hide Pieces, CountAll, TextOf, Sum;
    WindowShowsTenths(ms);
    SumsCompared(ms, MONITOR_READ);
    SumsCompared(ms, MONITOR_WRITE);
  }

  // ---------------------------------------------------------------- The loop

  lemma PiecesPrefix(c: Counters, ps: seq<string>, i: nat)
    requires i < |ps|
    ensures CountAll(c, ps[..i + 1]) == Count(CountAll(c, ps[..i]), ps[i])
  {
    hide Count;
    assert ps[..i + 1][..i] == ps[..i];
  }

  /** The loop of readfromsocket, over the pieces of the text that have arrived. */
  method ReadFromSocket(readlist: seq<string>, l_read: nat, l_written: nat) returns (read: nat, written: nat)
    ensures Counters(read, written) == CountAll(Counters(l_read, l_written), readlist)
  {
    hide Without, ToULong, Chopped;
    read, written := l_read, l_written;
    for i := 0 to |readlist|
      invariant Counters(read, written) == CountAll(Counters(l_read, l_written), readlist[..i])
    {
      PiecesPrefix(Counters(l_read, l_written), readlist, i);
      var output := readlist[i];
      if StartsWith(output, "W") {
        output := Chopped(Without(output, "W:"));
        written := (written + ToULong(output)) % ULONG_SIZE;
      }
      if StartsWith(output, "R") {
        output := Chopped(Without(output, "R:"));
        read := (read + ToULong(output)) % ULONG_SIZE;
      }
    }
    assert readlist[..|readlist|] == readlist;
  }
}
