/** Packing of write data and strobes by the bus driver, and its inverse in the
    bus monitor. */
module AxiBytes {
  import opened Basics

  /** Byte lane i of a data word: (data >> 8 * i) & 0xff. */
  function Lane(data: nat, i: nat): Byte
    decreases i
  {
    if i == 0 then data % 256 else Lane(data / 256, i - 1)
  }

  /** Bit i of a strobe word. */
  predicate Strobe(strb: nat, i: nat)
    decreases i
  {
    if i == 0 then strb % 2 == 1 else Strobe(strb / 2, i - 1)
  }

  /** The lanes up to n whose strobe is set, lowest first. */
  function Collected(data: nat, strb: nat, n: nat): seq<Byte> {
    if n == 0 then [] else Collected(data, strb, n - 1) + if Strobe(strb, n - 1) then [Lane(data, n - 1)] else []
  }

  /** collect_bytes on a bus of `width` lanes. */
  method CollectBytes(data: nat, strb: nat, width: nat) returns (res: seq<Byte>)
    ensures res == Collected(data, strb, width)
  {
    res := [];
    for i := 0 to width
      invariant res == Collected(data, strb, i)
    {
      if Strobe(strb, i) {
        res := res + [Lane(data, i)];
      }
    }
  }

  function Word(bytes: seq<Byte>): nat
    decreases |bytes|
  {
    if bytes == [] then 0 else bytes[0] + 256 * Word(bytes[1..])
  }

  function Ones(n: nat): nat { if n == 0 then 0 else 2 * Ones(n - 1) + 1 }

  /** The packing loop of the driver: the last byte of the payload goes in first. */
  method Pack(bytes: seq<Byte>) returns (wdata: nat, wstrb: nat)
    ensures wdata == Word(bytes) && wstrb == Ones(|bytes|)
  {
    wdata, wstrb := 0, 0;
    var n := |bytes|;
    for i := 0 to |bytes|
      invariant wdata == Word(bytes[n - i..]) && wstrb == Ones(i)
    {
      assert bytes[n - i - 1..][1..] == bytes[n - i..];
      wdata := wdata * 256;
      wstrb := wstrb * 2;
      wdata := wdata + bytes[n - 1 - i];
      wstrb := wstrb + 1;
    }
    assert bytes[0..] == bytes;
  }

  lemma {:induction false} WordLane(bytes: seq<Byte>, i: nat)
    ensures Lane(Word(bytes), i) == if i < |bytes| then bytes[i] else 0
    decreases i
  {
    if bytes == [] {
      ZeroLane(i);
    } else if i > 0 {
      assert Word(bytes) / 256 == Word(bytes[1..]);
      WordLane(bytes[1..], i - 1);
    }
  }

  lemma {:induction false} ZeroLane(i: nat)
    ensures Lane(0, i) == 0
    decreases i
  {
    if i > 0 {
      ZeroLane(i - 1);
    }
  }

  lemma {:induction false} OnesStrobe(n: nat, i: nat)
    ensures Strobe(Ones(n), i) <==> i < n
    decreases i
  {
    if n == 0 {
      NoStrobe(i);
    } else if i > 0 {
      assert Ones(n) / 2 == Ones(n - 1);
      OnesStrobe(n - 1, i - 1);
    }
  }

  lemma {:induction false} NoStrobe(i: nat)
    ensures !Strobe(0, i)
    decreases i
  {
    if i > 0 {
      NoStrobe(i - 1);
    }
  }

  /** Collecting what was packed gives the payload back, on every bus that is wide
      enough for it. */
  lemma {:induction false} PackCollect(bytes: seq<Byte>, n: nat)
    ensures Collected(Word(bytes), Ones(|bytes|), n) == bytes[..if n < |bytes| then n else |bytes|]
    decreases n
  {
    if n > 0 {
      PackCollect(bytes, n - 1);
      WordLane(bytes, n - 1);
      OnesStrobe(|bytes|, n - 1);
    }
  }

  function Power(base: nat, n: nat): nat { if n == 0 then 1 else base * Power(base, n - 1) }

  function Lanes(data: nat, n: nat): (r: seq<Byte>)
    ensures |r| == n
  {
    seq(n, i requires 0 <= i < n => Lane(data, i))
  }

  function Strobes(strb: nat, n: nat): nat
    decreases n
  {
    if n == 0 then 0 else (if Strobe(strb, 0) then 1 else 0) + 2 * Strobes(strb / 2, n - 1)
  }

  /** The lanes of a data word are its digits in base 256, and the strobes those of the
      strobe word in base 2: they make up the word again. */
  lemma {:induction false} LanesRebuild(data: nat, n: nat)
    requires data < Power(256, n)
    ensures Word(Lanes(data, n)) == data
    decreases n
  {
    if n > 0 {
      LanesRebuild(data / 256, n - 1);
      assert Lanes(data, n)[1..] == Lanes(data / 256, n - 1);
    }
  }

  lemma {:induction false} StrobesRebuild(strb: nat, n: nat)
    requires strb < Power(2, n)
    ensures Strobes(strb, n) == strb
    decreases n
  {
    if n > 0 {
      StrobesRebuild(strb / 2, n - 1);
    }
  }

  // ----- payloads of any length ----------------------------------------------------------------

  /** The first beat of a payload, and what is left behind it. */
  function Beat(data: seq<Byte>, width: nat): seq<Byte> { data[..Min(width, |data|)] }
  function Left(data: seq<Byte>, width: nat): seq<Byte> { data[Min(width, |data|)..] }

  /** The last beat of a payload. */
  function LastBeat(data: seq<Byte>, width: nat): (r: seq<Byte>)
    requires width > 0
    ensures |r| <= width
    decreases |data|
  {
    if |data| <= width then data else LastBeat(Left(data, width), width)
  }

  /** A payload is its own last beat exactly when it fits on the bus. */
  lemma LastBeatIsAll(data: seq<Byte>, width: nat)
    requires width > 0
    ensures LastBeat(data, width) == data <==> |data| <= width
  {
  }

  /** All beats one after the other. */
  function Beats(data: seq<Byte>, width: nat): (r: seq<seq<Byte>>)
    requires width > 0
    decreases |data|
  {
    if data == [] then [] else [Beat(data, width)] + Beats(Left(data, width), width)
  }

  function Flatten(s: seq<seq<Byte>>): seq<Byte> { if s == [] then [] else s[0] + Flatten(s[1..]) }

  /** No byte is lost between the beats, and the last one is what LastBeat says. */
  lemma {:induction false} BeatsCover(data: seq<Byte>, width: nat)
    requires width > 0
    ensures Flatten(Beats(data, width)) == data
    ensures data != [] ==> var b := Beats(data, width); b != [] && b[|b| - 1] == LastBeat(data, width)
    decreases |data|
  {
    if data != [] {
      var rest := Left(data, width);
      BeatsCover(rest, width);
      var b := Beats(data, width);
      assert b[1..] == Beats(rest, width);
      if |data| <= width {
        assert rest == [] && Beat(data, width) == data && Beats(rest, width) == [] && b == [data];
      } else {
        assert b[|b| - 1] == b[1..][|b| - 2];
      }
    }
  }

  lemma NoBeats(width: nat)
    requires width > 0
    ensures Beats([], width) == []
  {
  }

  lemma BeatsNext(data: seq<Byte>, width: nat)
    requires width > 0 && data != []
    ensures Beats(data, width) == [Beat(data, width)] + Beats(Left(data, width), width) && |Left(data, width)| < |data|
  {
  }

  /** The loop that splits a payload into beats of packed data and strobes. */
  method SendBeats(data: seq<Byte>, width: nat) returns (words: seq<(nat, nat)>)
    requires width > 0
    ensures |words| == |Beats(data, width)|
    ensures forall i | 0 <= i < |words| :: words[i] == (Word(Beats(data, width)[i]), Ones(|Beats(data, width)[i]|))
  {
    hide Word, Ones, Beats, Beat, Left;
    words := [];
    var rest := data;
    NoBeats(width);
    ghost var sent: seq<seq<Byte>> := [];
    while |rest| > 0
      invariant sent + Beats(rest, width) == Beats(data, width) && |words| == |sent|
      invariant forall i | 0 <= i < |words| :: words[i] == (Word(sent[i]), Ones(|sent[i]|))
      decreases |rest|
    {
      BeatsNext(rest, width);
      var beat := Beat(rest, width);
      var wdata, wstrb := Pack(beat);
      words := words + [(wdata, wstrb)];
      sent := sent + [beat];
      rest := Left(rest, width);
    }
  }
}
