/** The text that a monitor's reader gets, taken apart again. */
module Traffic {
  import opened Strings
  import opened Numbers
  import opened MonitorList

  /** Bytes that were read or written. */
  datatype Moved = Moved(func: MonitorFn, value: int)

  /** The pieces of a text that a hash mark ends. */
  function Pieces(text: string): seq<string>
    decreases |text|
  {
    var n := Find(text, '#');
    if n == |text| then [] else [text[..n]] + Pieces(text[n + 1..])
  }

  function ReadPiece(piece: string): seq<Moved> {
    if StartsWith(piece, "R:") then [Moved(MONITOR_READ, Atol(piece[2..]))]
    else if StartsWith(piece, "W:") then [Moved(MONITOR_WRITE, Atol(piece[2..]))]
    else []
  }

  function ReadPieces(ps: seq<string>): seq<Moved> {
    if ps == [] then [] else ReadPiece(ps[0]) + ReadPieces(ps[1..])
  }

  /** Everything that the text says was read and written, in order. */
  function ReadTraffic(text: string): seq<Moved> {
    ReadPieces(Pieces(text))
  }

  lemma PiecesFirst(piece: string, text: string)
    requires '#' !in piece
    ensures Pieces(piece + "#" + text) == [piece] + Pieces(text)
  {
    var t := piece + "#" + text;
    FindAt(piece, '#', text);
    assert piece + ['#'] + text == t && t[..|piece|] == piece && t[|piece| + 1..] == text;
  }

  /** The text for a value, in letters. */
  lemma TagIs(func: MonitorFn, value: int)
    ensures Tag(func, value)
         == match func
            case MONITOR_READ => "R:" + Signed(value) + "#"
            case MONITOR_WRITE => "W:" + Signed(value) + "#"
            case _ => ""
  {
  }

  lemma SignedClean(n: int)
    ensures '#' !in Signed(n)
  {
    var d := Decimal(if n < 0 then -n else n);
    assert forall c :: c in d ==> IsDigit(c);
  }

  predicate Counted(m: Moved) {
    m.func in {MONITOR_READ, MONITOR_WRITE} && IsLong(m.value)
  }

  /** A letter, a colon and the value in front of the hash mark. */
  function PieceOf(m: Moved): string {
    (if m.func == MONITOR_READ then "R:" else "W:") + Signed(m.value)
  }

  lemma PieceRead(m: Moved)
    requires Counted(m)
    ensures '#' !in PieceOf(m) && Tag(m.func, m.value) == PieceOf(m) + "#" && ReadPiece(PieceOf(m)) == [m]
  {
    hide Signed, Atol;
    SignedClean(m.value);
    MyatoiOfSigned(m.value);
    var piece := PieceOf(m);
    assert piece[2..] == Signed(m.value) && piece[..2] == if m.func == MONITOR_READ then "R:" else "W:";
    assert "R:"[0] == 'R' && "W:"[0] == 'W';
  }

  /** The text for a sequence of values. */
  function TextOf(ms: seq<Moved>): string {
    if ms == [] then "" else TextOf(ms[..|ms| - 1]) + Tag(ms[|ms| - 1].func, ms[|ms| - 1].value)
  }

  function PiecesOf(ms: seq<Moved>): (ps: seq<string>)
    ensures |ps| == |ms|
  {
    seq(|ms|, i requires 0 <= i < |ms| => PieceOf(ms[i]))
  }

  lemma NoPieces()
    ensures Pieces("") == []
  {
  }

  lemma FirstPiece(a: string)
    requires a != "" && a[|a| - 1] == '#'
    ensures var n := Find(a, '#'); n < |a| && a == a[..n] + "#" + a[n + 1..]
    ensures var rest := a[Find(a, '#') + 1..]; rest == "" || rest[|rest| - 1] == '#'
  {
    assert '#' in a && a[..|a|] == a;
  }

  /** Whole pieces in front of a text. */
  lemma {:induction false} PiecesAppend(a: string, text: string)
    requires a == "" || a[|a| - 1] == '#'
    ensures Pieces(a + text) == Pieces(a) + Pieces(text)
    decreases |a|
  {
    hide Find, Pieces;
    NoPieces();
    if a == "" {
      assert a + text == text;
    } else {
      FirstPiece(a);
      var n := Find(a, '#');
      var first, rest := a[..n], a[n + 1..];
      assert a + text == first + "#" + (rest + text);
      PiecesFirst(first, rest);
      PiecesFirst(first, rest + text);
      PiecesAppend(rest, text);
    }
  }

  lemma {:induction false} PiecesOfText(ms: seq<Moved>)
    requires forall m :: m in ms ==> Counted(m)
    ensures Pieces(TextOf(ms)) == PiecesOf(ms) && (TextOf(ms) == "" || TextOf(ms)[|TextOf(ms)| - 1] == '#')
    decreases |ms|
  {
    hide PieceOf, Tag, Counted, ReadPiece, Pieces;
    if ms == [] {
      NoPieces();
    } else {
      var n := |ms| - 1;
      assert ms[n] in ms;
      PiecesOfText(ms[..n]);
      PieceRead(ms[n]);
      PiecesAppend(TextOf(ms[..n]), PieceOf(ms[n]) + "#");
      PiecesFirst(PieceOf(ms[n]), "");
      assert PieceOf(ms[n]) + "#" + "" == PieceOf(ms[n]) + "#";
      NoPieces();
    }
  }

  lemma {:induction false} ReadPiecesOf(ms: seq<Moved>)
    requires forall m :: m in ms ==> Counted(m)
    ensures ReadPieces(PiecesOf(ms)) == ms
    decreases |ms|
  {
    hide PieceOf, Counted, ReadPiece;
    if ms != [] {
      assert ms[0] in ms && PiecesOf(ms)[1..] == PiecesOf(ms[1..]);
      ReadPiecesOf(ms[1..]);
      PieceRead(ms[0]);
    }
  }

  /** Whatever was counted is read back from the text, with its direction and in order. */
  lemma ReadOfText(ms: seq<Moved>)
    requires forall m :: m in ms ==> Counted(m)
    ensures ReadTraffic(TextOf(ms)) == ms
  {
    hide PieceOf, Counted, ReadPiece, Pieces;
    PiecesOfText(ms);
    ReadPiecesOf(ms);
  }
}
