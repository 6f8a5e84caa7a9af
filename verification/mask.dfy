/** Display masking of affiliate usernames. */
module Mask {

  /** The fixed filler put between the kept characters. */
  const Filler: string := "***"

  /** Usernames of at most four characters are shown in full; longer ones keep
      their first two and last two characters around the filler. */
  function MaskUsername(u: string): (r: string)
    ensures |u| <= 4 ==> r == u
    ensures |u| > 4 ==> |r| == 7 && r[..2] == u[..2] && r[5..] == u[|u| - 2..]
    ensures |u| > 4 ==> forall i :: 2 <= i < 5 ==> r[i] == '*'
  {
    if |u| <= 4 then u else u[..2] + Filler + u[|u| - 2..]
  }

  /** A masked name never exceeds seven characters, and it reveals at most
      four characters of the original: the first two and the last two. */
  lemma MaskBounds(u: string)
    ensures |MaskUsername(u)| <= 7
    ensures |MaskUsername(u)| <= |u| + 2
    ensures |u| > 4 ==> MaskUsername(u)[..2] + MaskUsername(u)[5..] == u[..2] + u[|u| - 2..]
  {
  }

  /** Exactly the short names and the names already of the masked shape are
      left alone by masking. */
  lemma MaskFixpoints(u: string)
    ensures MaskUsername(u) == u <==> |u| <= 4 || (|u| == 7 && u[2..5] == Filler)
  {
    if |u| > 4 {
      var r := MaskUsername(u);
      if |u| == 7 && u[2..5] == Filler {
        assert u == u[..2] + u[2..5] + u[5..];
      }
      if r == u {
        assert |u| == 7;
        assert u[2..5] == r[2..5] == Filler;
      }
    }
  }

  /** Masking twice is masking once. */
  lemma MaskIdempotent(u: string)
    ensures MaskUsername(MaskUsername(u)) == MaskUsername(u)
  {
    var r := MaskUsername(u);
    if |u| > 4 {
      assert r[2..5] == Filler;
    }
    MaskFixpoints(r);
  }
}
