/** Which run of zero groups the printer elides: chosen on characters, explained on groups. */
module Compress {
  import opened Text

  ghost predicate LegibleAt(fs: seq<string>, i: nat)
    requires i < |fs|
  {
    var f := fs[i];
    && f != "" && ':' !in f && '\0' !in f
    && (f == "0" || f[0] != '0' || (|f| > 1 && f[1] != '0' && (i == 0 || fs[i - 1] != "0")))
  }

  /** Fields as "%x" and the dotted end produce them: only "0" is made of zeros. A dotted end may
      start with '0', but then the field before it is not "0". */
  ghost predicate Legible(fs: seq<string>) {
    forall i :: 0 <= i < |fs| ==> LegibleAt(fs, i)
  }

  /** Length of the run of zero groups at the front. */
  ghost function Zeros(fs: seq<string>): (k: nat)
    ensures k <= |fs|
    ensures forall i :: 0 <= i < k ==> fs[i] == "0"
    ensures k < |fs| ==> fs[k] != "0"
  {
    if fs != [] && fs[0] == "0" then 1 + Zeros(fs[1..]) else 0
  }

  /** Length of the run of zero groups at `g`. */
  ghost function Run(fs: seq<string>, g: nat): (k: nat)
    requires g <= |fs|
    ensures g + k <= |fs|
    ensures forall i :: g <= i < g + k ==> fs[i] == "0"
    ensures g + k < |fs| ==> fs[g + k] != "0"
  {
    assert forall i :: g <= i < g + Zeros(fs[g..]) ==> fs[i] == fs[g..][i - g];
    Zeros(fs[g..])
  }

  /** How many characters the zero run at `g` spans, with the colons around it; 0 if there is none. */
  ghost function Weight(fs: seq<string>, g: nat): nat
    requires g < |fs|
  {
    var k := Run(fs, g);
    if k == 0 then 0
    else 2 * k - 1 + (if g > 0 then 1 else 0) + (if g + k < |fs| then 1 else 0)
  }

  ghost function Weights(fs: seq<string>): (ws: seq<nat>)
    ensures |ws| == |fs| && forall g :: 0 <= g < |fs| ==> ws[g] == Weight(fs, g)
  {
    seq(|fs|, g requires 0 <= g < |fs| => Weight(fs, g))
  }

  /** The first of the greatest among the first `n` numbers, if any is greater than 2. */
  ghost function FirstMax(ws: seq<nat>, n: nat): (r: (nat, nat))
    requires n <= |ws|
    ensures r.1 >= 2 && (r.1 == 2 ==> r.0 == 0)
    ensures r.1 > 2 ==> r.0 < n && r.1 == ws[r.0]
  {
    if n == 0 then (0, 2)
    else
      var r := FirstMax(ws, n - 1);
      if ws[n - 1] > r.1 then (n - 1, ws[n - 1]) else r
  }

  /** The first of the heaviest runs among the first `n` groups, and its weight. */
  ghost function Choice(fs: seq<string>, n: nat): (r: (nat, nat))
    requires n <= |fs|
    ensures r.1 >= 2 && (r.1 == 2 ==> r.0 == 0)
    ensures r.1 > 2 ==> r.0 < n && r.1 == Weight(fs, r.0)
  {
    FirstMax(Weights(fs), n)
  }

  /** The text with the run at `g` elided. */
  ghost function Elided(fs: seq<string>, g: nat): string
    requires g <= |fs|
  {
    Join(':', fs[..g]) + "::" + Join(':', fs[g + Run(fs, g)..])
  }

  /** The text with the chosen run elided, if there is one. */
  ghost function Compressed(fs: seq<string>): string {
    if Choice(fs, |fs|).1 > 2 then Elided(fs, Choice(fs, |fs|).0) else Join(':', fs)
  }

  // ------------------------------------------------ the choice, in terms of groups

  lemma {:induction false} FirstMaxIsMax(ws: seq<nat>, n: nat, g: nat)
    requires g < n <= |ws|
    ensures var r := FirstMax(ws, n); ws[g] <= r.1 && (g < r.0 ==> ws[g] < r.1)
  {
    if g == n - 1 {
    } else {
      FirstMaxIsMax(ws, n - 1, g);
    }
  }

  /** No run is heavier than the chosen one, and none before it as heavy. */
  lemma ChoiceIsHeaviest(fs: seq<string>)
    ensures var r := Choice(fs, |fs|);
      forall g :: 0 <= g < |fs| ==> Weight(fs, g) <= r.1 && (g < r.0 ==> Weight(fs, g) < r.1)
  {
    var ws := Weights(fs);
    forall g | 0 <= g < |fs|
      ensures var r := FirstMax(ws, |fs|); ws[g] <= r.1 && (g < r.0 ==> ws[g] < r.1)
    {
      FirstMaxIsMax(ws, |fs|, g);
    }
  }

  lemma RunStep(fs: seq<string>, g: nat)
    requires g + 1 < |fs|
    ensures fs[g] == "0" ==> Run(fs, g) == 1 + Run(fs, g + 1)
  {
    assert fs[g..][1..] == fs[g + 1..];
  }

  /** A whole run of zero groups, and none longer. Among equals the first one inside is preferred; if
      there is none inside, the one at the front. */
  ghost predicate LongestRun(fs: seq<string>, g: nat)
    requires g < |fs|
  {
    && Run(fs, g) > 0 && (g > 0 ==> fs[g - 1] != "0")
    && (forall h :: 0 <= h < |fs| ==> Run(fs, h) <= Run(fs, g))
    && (forall h :: 0 < h < g ==> Run(fs, h) < Run(fs, g))
    && (g > 0 && Run(fs, 0) == Run(fs, g) ==> g + Run(fs, g) < |fs|)
    && (g == 0 ==> forall h :: 0 < h < |fs| && Run(fs, h) == Run(fs, 0) ==> h + Run(fs, h) == |fs|)
  }

  /** No run of two zero groups, and none of one group inside. */
  ghost predicate NothingToElide(fs: seq<string>) {
    forall h :: 0 <= h < |fs| ==> Run(fs, h) == 0 || (Run(fs, h) == 1 && (h == 0 || h == |fs| - 1))
  }

  lemma LongestRunUnique(fs: seq<string>, g: nat, h: nat)
    requires g < |fs| && h < |fs| && LongestRun(fs, g) && LongestRun(fs, h)
    ensures g == h
  {
    assert Run(fs, g) <= Run(fs, h) <= Run(fs, g);
  }

  lemma WeightBounds(fs: seq<string>, h: nat)
    requires h < |fs|
    ensures var k, w := Run(fs, h), Weight(fs, h);
      && (w == 0 <==> k == 0)
      && (k > 0 ==> 2 * k - 1 <= w <= 2 * k + 1)
      && (k > 0 && h > 0 ==> 2 * k <= w)
      && (k > 0 && h + k < |fs| ==> 2 * k <= w)
      && (w == 2 * k + 1 ==> h > 0 && h + k < |fs|)
      && (k > 0 && w == 2 * k - 1 ==> h == 0 && k == |fs|)
      && (k > 0 && h > 0 && h + k < |fs| ==> w == 2 * k + 1)
  {
  }

  lemma HeavierIsLonger(fs: seq<string>, g: nat, h: nat)
    requires g < |fs| && h < |fs| && Weight(fs, g) > 2
    requires Weight(fs, h) <= Weight(fs, g) && (h < g ==> Weight(fs, h) < Weight(fs, g))
    ensures 0 < Run(fs, g) && Run(fs, h) <= Run(fs, g)
    ensures 0 < h < g ==> Run(fs, h) < Run(fs, g)
    ensures h == 0 < g && Run(fs, 0) == Run(fs, g) ==> g + Run(fs, g) < |fs|
    ensures g == 0 < h && Run(fs, h) == Run(fs, 0) ==> h + Run(fs, h) == |fs|
  {
    WeightBounds(fs, g);
    WeightBounds(fs, h);
  }

  lemma HeaviestIsLongest(fs: seq<string>, g: nat)
    requires g < |fs| && Weight(fs, g) > 2
    requires forall h :: 0 <= h < |fs| ==> Weight(fs, h) <= Weight(fs, g) && (h < g ==> Weight(fs, h) < Weight(fs, g))
    ensures LongestRun(fs, g)
  {
    forall h | 0 <= h < |fs|
      ensures Run(fs, h) <= Run(fs, g) && (0 < h < g ==> Run(fs, h) < Run(fs, g))
      ensures g == 0 < h && Run(fs, h) == Run(fs, 0) ==> h + Run(fs, h) == |fs|
    {
      HeavierIsLonger(fs, g, h);
    }
    HeavierIsLonger(fs, g, 0);
    if g > 0 {
      RunStep(fs, g - 1);
      assert Run(fs, g - 1) <= Run(fs, g);
    }
  }

  /** If anything is elided, it is that longest run and no other. */
  lemma ChoiceIsLongest(fs: seq<string>, g: nat)
    requires g < |fs| && Choice(fs, |fs|).1 > 2
    ensures g == Choice(fs, |fs|).0 <==> LongestRun(fs, g)
  {
    var c := Choice(fs, |fs|).0;
    ChoiceIsHeaviest(fs);
    HeaviestIsLongest(fs, c);
    if LongestRun(fs, g) {
      LongestRunUnique(fs, g, c);
    }
  }

  /** Nothing is elided exactly if nothing is worth it. */
  lemma NoChoice(fs: seq<string>)
    ensures Choice(fs, |fs|).1 == 2 <==> NothingToElide(fs)
  {
    ChoiceIsHeaviest(fs);
    forall h | 0 <= h < |fs|
      ensures Run(fs, h) == 0 || (Run(fs, h) == 1 && (h == 0 || h == |fs| - 1)) <==> Weight(fs, h) <= 2
    {
      WeightBounds(fs, h);
    }
  }

  // ------------------------------------------------ where this is not RFC 5952

  /** The run section 4.2.3 of RFC 5952 asks for: a longest one, and of those the first. */
  ghost predicate LeftmostLongest(fs: seq<string>, g: nat)
    requires g < |fs|
  {
    && Run(fs, g) > 0
    && (forall h :: 0 <= h < |fs| ==> Run(fs, h) <= Run(fs, g))
    && (forall h :: 0 <= h < g ==> Run(fs, h) < Run(fs, g))
  }

  /** A run as long as the one at the front, which does not reach the end. */
  ghost predicate EqualInside(fs: seq<string>) {
    exists h :: 0 < h < |fs| && Run(fs, h) == Run(fs, 0) && h + Run(fs, h) < |fs|
  }

  lemma LeftmostIsMaximal(fs: seq<string>, g: nat)
    requires 0 < g < |fs| && LeftmostLongest(fs, g)
    ensures fs[g - 1] != "0"
  {
    RunStep(fs, g - 1);
  }

  /** Section 4.2.3 is met exactly unless that run is at the front and has an equal one inside. */
  lemma LeftmostIsChosen(fs: seq<string>, g: nat)
    requires g < |fs| && Choice(fs, |fs|).1 > 2 && LeftmostLongest(fs, g)
    ensures g == Choice(fs, |fs|).0 <==> !(g == 0 && EqualInside(fs))
  {
    ChoiceIsLongest(fs, g);
    if g > 0 {
      LeftmostIsMaximal(fs, g);
    }
  }

  /** A single zero group is elided, against section 4.2.2, exactly if there is no longer run and a
      single one stands inside. */
  lemma SingleIsElided(fs: seq<string>)
    ensures Choice(fs, |fs|).1 > 2 && Run(fs, Choice(fs, |fs|).0) == 1 <==>
      (forall h :: 0 <= h < |fs| ==> Run(fs, h) <= 1) && exists h :: 0 < h < |fs| - 1 && Run(fs, h) == 1
  {
    var (g, w) := Choice(fs, |fs|);
    ChoiceIsHeaviest(fs);
    if w > 2 {
      HeaviestIsLongest(fs, g);
      WeightBounds(fs, g);
      assert Run(fs, g) == 1 ==> 0 < g < |fs| - 1;
    } else {
      NoChoice(fs);
    }
  }

  // ------------------------------------------------ the same, in terms of characters

  /** Where the character scan looks for the run at `g`: the start, or the colon before the group. */
  ghost function At(fs: seq<string>, g: nat): nat
    requires g <= |fs|
  {
    |Join(':', fs[..g])|
  }

  /** The text from that place on. */
  ghost function From(fs: seq<string>, g: nat): string
    requires g <= |fs|
  {
    if g == 0 then Join(':', fs) else Tail(':', fs[g..])
  }

  lemma TextFrom(fs: seq<string>, g: nat)
    requires g <= |fs|
    ensures Join(':', fs) == Join(':', fs[..g]) + From(fs, g)
    ensures Join(':', fs)[..At(fs, g)] == Join(':', fs[..g]) && Join(':', fs)[At(fs, g)..] == From(fs, g)
  {
    if g > 0 {
      JoinTail(':', fs[..g], fs[g..]);
      assert fs == fs[..g] + fs[g..];
    } else {
      assert fs[..0] == [];
    }
  }

  lemma LegibleSuffix(fs: seq<string>, g: nat)
    requires Legible(fs) && g <= |fs|
    ensures Legible(fs[g..])
  {
    var r := fs[g..];
    forall i | 0 <= i < |r|
      ensures LegibleAt(r, i)
    {
      assert r[i] == fs[g + i] && LegibleAt(fs, g + i);
      assert i > 0 ==> r[i - 1] == fs[g + i - 1];
    }
  }

  /** What strspn counts from a colon on. */
  lemma {:induction false} SpanOfTail(fs: seq<string>)
    requires fs != [] && Legible(fs)
    ensures var k, span := Zeros(fs), Span(Tail(':', fs));
      if k > 0 then span == 2 * k + (if k < |fs| then 1 else 0)
      else 1 <= span <= 2 && (LegibleAt(fs, 0) && fs[0][0] != '0' ==> span == 1)
    decreases |fs|
  {
    var f, rest := fs[0], fs[1..];
    var t := Tail(':', fs);
    assert t == [':'] + (f + Tail(':', rest)) && t[1..] == f + Tail(':', rest);
    assert LegibleAt(fs, 0);
    assert f[0] != ':' by { assert f[0] in f; }
    if f == "0" {
      assert t[1..][1..] == Tail(':', rest);
      assert Span(t) == 2 + Span(Tail(':', rest));
      if rest != [] {
        LegibleSuffix(fs, 1);
        SpanOfTail(rest);
        assert fs[1] == rest[0] && LegibleAt(fs, 1);
      }
    } else if f[0] == '0' {
      assert f[1] != ':' by { assert f[1] in f; }
      assert t[1..][1..][0] == f[1] && Span(t[1..][1..]) == 0;
      assert t[1..][0] == '0' && Span(t[1..]) == 1;
    }
  }

  /** At each place the scan looks, the characters tell the weight of the run. */
  lemma SpanIsWeight(fs: seq<string>, g: nat)
    requires g < |fs| && Legible(fs)
    ensures Weight(fs, g) > 0 ==> Span(From(fs, g)) == Weight(fs, g)
    ensures Weight(fs, g) == 0 ==> Span(From(fs, g)) <= 2
  {
    LegibleSuffix(fs, g);
    SpanOfTail(fs[g..]);
    if g == 0 {
      assert fs[0..] == fs;
      TailJoin(':', fs);
      assert Tail(':', fs)[1..] == Join(':', fs);
    }
  }

  lemma {:induction false} TailOfZeros(fs: seq<string>)
    ensures Tail(':', fs) == Tail(':', fs[..Zeros(fs)]) + Tail(':', fs[Zeros(fs)..])
    ensures |Tail(':', fs[..Zeros(fs)])| == 2 * Zeros(fs)
    decreases |fs|
  {
    var k := Zeros(fs);
    TailSplit(':', fs[..k], fs[k..]);
    assert fs == fs[..k] + fs[k..];
    if k == 0 {
    } else {
      TailOfZeros(fs[1..]);
      assert fs[..k][1..] == fs[1..][..k - 1];
    }
  }

  lemma CutFrom(fs: seq<string>, g: nat)
    requires g < |fs| && Weight(fs, g) > 0
    ensures Weight(fs, g) <= |From(fs, g)| && From(fs, g)[Weight(fs, g)..] == Join(':', fs[g + Run(fs, g)..])
  {
    var k, w := Run(fs, g), Weight(fs, g);
    var rest, t := fs[g + k..], Tail(':', fs[g..]);
    TailOfZeros(fs[g..]);
    assert fs[g..][k..] == rest;
    assert t[2 * k..] == Tail(':', rest);
    if rest != [] {
      TailJoin(':', rest);
      assert t[2 * k..][1..] == t[2 * k + 1..];
    }
    if g == 0 {
      assert fs[0..] == fs;
      TailJoin(':', fs);
      assert From(fs, 0)[w..] == t[1..][w..] == t[w + 1..];
    }
  }

  /** Cutting the run's characters out of the text leaves the groups before it and after it. */
  lemma CutRun(fs: seq<string>, g: nat)
    requires g < |fs| && Weight(fs, g) > 0
    ensures At(fs, g) + Weight(fs, g) <= |Join(':', fs)|
    ensures Elided(fs, g) == Join(':', fs)[..At(fs, g)] + "::" + Join(':', fs)[At(fs, g) + Weight(fs, g)..]
  {
    TextFrom(fs, g);
    CutFrom(fs, g);
    var text, w := Join(':', fs), Weight(fs, g);
    assert text[At(fs, g)..][w..] == text[At(fs, g) + w..];
  }
}
