// The layout of a JMV file: after a header and the frame vector, one audio packet
// and one JPEG image per frame.
module JmvLayout {
  import opened Bytes

  // A file with its frame vector, audio packet size and the size of header and vector.
  datatype Movie = Movie(file: seq<byte>, vect: seq<nat>, pkt: nat, head: nat)

  // File offset of frame i: its audio packet, then its JPEG image.
  function Off(m: Movie, i: nat): nat
    requires i <= |m.vect|
  {
    if i == 0 then m.head else Off(m, i - 1) + m.pkt + m.vect[i - 1]
  }

  // A later frame starts behind the whole of an earlier one.
  lemma OffIncreases(m: Movie, i: nat, j: nat)
    requires i < j <= |m.vect|
    ensures Off(m, i) + m.pkt + m.vect[i] <= Off(m, j)
    decreases j - i
  {
    if i < j - 1 {
      OffIncreases(m, i, j - 1);
    }
  }

  lemma OffOrdered(m: Movie, i: nat, j: nat)
    requires i <= |m.vect| && j <= |m.vect| && m.pkt > 0
    ensures Off(m, i) < Off(m, j) <==> i < j
  {
    if i < j {
      OffIncreases(m, i, j);
    } else if j < i {
      OffIncreases(m, j, i);
    }
  }

  // The size of n audio packets.
  function Packets(n: nat, pkt: nat): nat {
    if n == 0 then 0 else Packets(n - 1, pkt) + pkt
  }

  lemma PacketsIsProduct(n: nat, pkt: nat)
    ensures Packets(n, pkt) == n * pkt
  {
  }

  lemma PacketsOrdered(a: nat, b: nat, pkt: nat)
    requires Packets(a, pkt) + pkt <= Packets(b, pkt) && a <= b && 0 < pkt
    ensures a < b
  {
  }

  // A whole packet from file position p on.
  predicate HasAudio(m: Movie, p: nat) {
    p + m.pkt <= |m.file|
  }

  function Packet(m: Movie, p: nat): (s: seq<byte>)
    requires HasAudio(m, p)
    ensures |s| == m.pkt
  {
    m.file[p..p + m.pkt]
  }

  predicate AllAudio(m: Movie, places: seq<nat>) {
    forall p :: p in places ==> HasAudio(m, p)
  }

  // The audio packets at a list of file positions, one behind the other.
  function Audio(m: Movie, places: seq<nat>): (s: seq<byte>)
    requires AllAudio(m, places)
    ensures |s| == Packets(|places|, m.pkt)
  {
    if places == [] then []
    else
      var rest := places[..|places| - 1];
      assert forall p :: p in rest ==> p in places;
      Audio(m, rest) + Packet(m, places[|places| - 1])
  }

  lemma AudioAppend(m: Movie, places: seq<nat>, p: nat)
    requires AllAudio(m, places) && HasAudio(m, p)
    ensures AllAudio(m, places + [p])
    ensures Audio(m, places + [p]) == Audio(m, places) + Packet(m, p)
  {
    assert (places + [p])[..|places|] == places;
  }

  // Where the frames a, a + 1, ..., b - 1 start.
  function Starts(m: Movie, a: nat, b: nat): (s: seq<nat>)
    requires a <= b <= |m.vect|
    ensures |s| == b - a
    ensures forall k :: 0 <= k < b - a ==> s[k] == Off(m, a + k)
  {
    if a == b then [] else Starts(m, a, b - 1) + [Off(m, b - 1)]
  }

  // A list of positions stays the movie's own exactly if the next frame's comes next.
  lemma StartsOn(m: Movie, places: seq<nat>, a: nat, b: nat, p: nat)
    requires a <= b < |m.vect| && |places| == b - a
    ensures places + [p] == Starts(m, a, b + 1) <==> places == Starts(m, a, b) && p == Off(m, b)
  {
    var s := Starts(m, a, b);
    assert Starts(m, a, b + 1) == s + [Off(m, b)];
    assert (places + [p])[..|places|] == places && (s + [Off(m, b)])[..|places|] == s;
    assert (places + [p])[|places|] == p && (s + [Off(m, b)])[|places|] == Off(m, b);
  }

  // The audio at a list of positions, without the last one.
  lemma AudioLess(m: Movie, places: seq<nat>)
    requires AllAudio(m, places) && places != []
    ensures var rest, last := places[..|places| - 1], places[|places| - 1];
      AllAudio(m, rest) && HasAudio(m, last) && Audio(m, places) == Audio(m, rest) + Packet(m, last)
  {
    assert forall p :: p in places[..|places| - 1] ==> p in places;
    assert places[|places| - 1] in places;
  }

  lemma InFront(a: seq<byte>, b: seq<byte>, i: nat, j: nat)
    requires i <= j <= |a|
    ensures (a + b)[i..j] == a[i..j]
  {
  }

  lemma Behind(a: seq<byte>, b: seq<byte>)
    ensures (a + b)[|a|..|a| + |b|] == b
  {
  }

  // The n-th packet of the audio at a list of positions.
  lemma {:induction false} AudioAt(m: Movie, places: seq<nat>, n: nat)
    requires AllAudio(m, places) && n < |places|
    ensures HasAudio(m, places[n]) && Packets(n, m.pkt) + m.pkt <= |Audio(m, places)|
    ensures Audio(m, places)[Packets(n, m.pkt)..Packets(n, m.pkt) + m.pkt] == Packet(m, places[n])
  {
    hide Audio, AllAudio, Packet, HasAudio;
    var last, p := |places| - 1, Packets(n, m.pkt);
    var rest := places[..last];
    AudioLess(m, places);
    if n < last {
      AudioAt(m, rest, n);
      InFront(Audio(m, rest), Packet(m, places[last]), p, p + m.pkt);
    } else {
      Behind(Audio(m, rest), Packet(m, places[last]));
    }
  }

  // The first n packets at a list of positions are the audio at its first n positions.
  lemma {:induction false} AudioPrefix(m: Movie, places: seq<nat>, n: nat)
    requires AllAudio(m, places) && n <= |places|
    ensures AllAudio(m, places[..n]) && Packets(n, m.pkt) <= |Audio(m, places)|
    ensures Audio(m, places)[..Packets(n, m.pkt)] == Audio(m, places[..n])
  {
    hide Audio, AllAudio, Packet, HasAudio;
    if n == |places| {
      assert places[..n] == places;
    } else {
      var rest := places[..|places| - 1];
      AudioLess(m, places);
      AudioPrefix(m, rest, n);
      assert rest[..n] == places[..n];
      InFront(Audio(m, rest), Packet(m, places[|places| - 1]), 0, Packets(n, m.pkt));
    }
  }
}
