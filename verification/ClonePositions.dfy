/** The position key that orders clone groups: paths joined with zero-padded line indexes.
    On groups over the same files it orders by start index. */
module ClonePositions {
  import opened Ordering

  function Digit(n: nat): char
    requires n < 10
  {
    "0123456789"[n]
  }

  function Itoa(n: nat): string {
    if n < 10 then [Digit(n)] else Itoa(n / 10) + [Digit(n % 10)]
  }

  function Zeros(n: nat): (z: string)
    ensures |z| == n
  {
    if n == 0 then "" else Zeros(n - 1) + "0"
  }

  function Pow10(w: nat): (p: nat)
    ensures p > 0
  {
    if w == 0 then 1 else 10 * Pow10(w - 1)
  }

  const WIDTH: nat := 10

  function FormatCloneIndex(value: nat): (places: string)
    ensures |places| == 10
  {
    var text := Zeros(WIDTH) + Itoa(value);
    text[|text| - WIDTH..]
  }

  /** The decimal digits of n in exactly w places. */
  function Pad(n: nat, w: nat): (s: string)
    ensures |s| == w
  {
    if w == 0 then "" else Pad(n / 10, w - 1) + [Digit(n % 10)]
  }

  lemma {:induction false} PadZero(w: nat)
    ensures Pad(0, w) == Zeros(w)
  {
    if w > 0 { PadZero(w - 1); }
  }

  lemma {:induction false} LastPlaces(n: nat, w: nat, z: nat)
    requires 0 < w <= z && n < Pow10(w)
    ensures var text := Zeros(z) + Itoa(n); text[|text| - w..] == Pad(n, w)
  {
    hide Digit, Pow10;
    if n < 10 {
      PadZero(w - 1);
      ZerosEnd(z, w - 1);
      EndOfAppended(Zeros(z), [Digit(n)], w - 1);
    } else {
      TensFit(n, w);
      LastPlaces(n / 10, w - 1, z);
      var front := Zeros(z) + Itoa(n / 10);
      assert Zeros(z) + Itoa(n) == front + [Digit(n % 10)];
      EndOfAppended(front, [Digit(n % 10)], w - 1);
    }
  }

  lemma TensFit(n: nat, w: nat)
    requires 10 <= n < Pow10(w)
    ensures w > 1 && n / 10 < Pow10(w - 1)
  {
  }

  lemma EndOfAppended(front: string, last: string, w: nat)
    requires w <= |front| && |last| == 1
    ensures (front + last)[|front + last| - (w + 1)..] == front[|front| - w..] + last
  {
  }

  lemma {:induction false} ZerosEnd(z: nat, w: nat)
    requires w <= z
    ensures Zeros(z)[z - w..] == Zeros(w)
  {
    if w > 0 {
      ZerosEnd(z - 1, w - 1);
      assert Zeros(z)[z - w..] == Zeros(z - 1)[(z - 1) - (w - 1)..] + "0";
    }
  }

  lemma {:induction false} LessAfterPrefix(p: string, s: string, t: string)
    ensures Less(p + s, p + t) == Less(s, t)
  {
    if p == "" {
      assert p + s == s && p + t == t;
    } else {
      assert (p + s)[1..] == p[1..] + s && (p + t)[1..] == p[1..] + t;
      LessAfterPrefix(p[1..], s, t);
    }
  }

  /** With the same number of places, text order is number order whatever follows. */
  lemma {:induction false} PaddedOrder(a: nat, b: nat, w: nat, x: string, y: string)
    requires a < b < Pow10(w)
    ensures Less(Pad(a, w) + x, Pad(b, w) + y)
  {
    if w > 0 {
      var c, d := [Digit(a % 10)], [Digit(b % 10)];
      assert Pad(a, w) + x == Pad(a / 10, w - 1) + (c + x);
      assert Pad(b, w) + y == Pad(b / 10, w - 1) + (d + y);
      if a / 10 < b / 10 {
        PaddedOrder(a / 10, b / 10, w - 1, c + x, d + y);
      } else {
        assert a / 10 == b / 10 && a % 10 < b % 10;
        LessAfterPrefix(Pad(a / 10, w - 1), c + x, d + y);
      }
    }
  }

  lemma FormattedOrder(a: nat, b: nat, x: string, y: string)
    requires a < b < Pow10(WIDTH)
    ensures Less(FormatCloneIndex(a) + x, FormatCloneIndex(b) + y)
  {
    LastPlaces(a, WIDTH, WIDTH);
    LastPlaces(b, WIDTH, WIDTH);
    PaddedOrder(a, b, WIDTH, x, y);
  }

  /** One window's position: its file's path and its start index. */
  datatype Position = Position(path: string, start: nat)

  function PositionText(p: Position): string {
    p.path + ":" + FormatCloneIndex(p.start)
  }

  function PositionKey(ps: seq<Position>): string {
    if ps == [] then "" else if |ps| == 1 then PositionText(ps[0]) else PositionText(ps[0]) + "|" + PositionKey(ps[1..])
  }

  function AfterFirst(ps: seq<Position>): string
    requires ps != []
  {
    if |ps| == 1 then "" else "|" + PositionKey(ps[1..])
  }

  lemma KeyStartsWithFirst(ps: seq<Position>)
    requires ps != []
    ensures PositionKey(ps) == (ps[0].path + ":") + (FormatCloneIndex(ps[0].start) + AfterFirst(ps))
  {
    hide FormatCloneIndex, Zeros, Itoa;
    Regroup(ps[0].path + ":", FormatCloneIndex(ps[0].start), AfterFirst(ps));
    if |ps| == 1 {
      Regroup(ps[0].path + ":", FormatCloneIndex(ps[0].start), "");
    } else {
      Regroup(PositionText(ps[0]), "|", PositionKey(ps[1..]));
    }
  }

  lemma Regroup(a: string, b: string, c: string)
    ensures (a + b) + c == a + (b + c) && a + "" == a
  {
  }

  /** A group that starts later in the same first file has a greater key. */
  lemma LaterStartHasGreaterKey(a: seq<Position>, b: seq<Position>)
    requires a != [] && b != [] && a[0].path == b[0].path && a[0].start < b[0].start < Pow10(WIDTH)
    ensures Less(PositionKey(a), PositionKey(b))
  {
    hide FormatCloneIndex, AfterFirst, PositionKey, Less, Pow10;
    KeyStartsWithFirst(a);
    KeyStartsWithFirst(b);
    FormattedOrder(a[0].start, b[0].start, AfterFirst(a), AfterFirst(b));
    LessAfterPrefix(a[0].path + ":", FormatCloneIndex(a[0].start) + AfterFirst(a),
                    FormatCloneIndex(b[0].start) + AfterFirst(b));
  }
}
