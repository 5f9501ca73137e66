/** Movies, the order in which they are recommended, and the secret suffix that sorting appends
    to every title.  A title is the sequence of its bytes, each written as a char below 256. */
module MovieOrder {

  datatype Movie = Movie(title: string, score: real)

  const SECRET := "\t[It's top secret.]"

  /** strcmp(a, b) < 0. */
  predicate Less(a: string, b: string)
  {
    if b == [] then false
    else if a == [] then true
    else if a[0] != b[0] then a[0] < b[0]
    else Less(a[1..], b[1..])
  }

  /** x is listed strictly before y: higher score first, then smaller title. */
  predicate Before(x: Movie, y: Movie)
  {
    x.score > y.score || (x.score == y.score && Less(x.title, y.title))
  }

  ghost predicate Sorted(xs: seq<Movie>)
  {
    forall i, j :: 0 <= i < j < |xs| ==> !Before(xs[j], xs[i])
  }

  function AddSecret(x: Movie): Movie
  {
    x.(title := x.title + SECRET)
  }

  function AddSecrets(xs: seq<Movie>): seq<Movie>
  {
    seq(|xs|, i requires 0 <= i < |xs| => AddSecret(xs[i]))
  }

  /** a is a proper prefix of b, so a is listed first, but once both carry the suffix b is. */
  predicate Inverted(a: string, b: string)
  {
    |a| < |b| && b[..|a|] == a && Less(b[|a|..] + SECRET, SECRET)
  }

  /** No two movies with equal scores have titles that the suffix puts in the other order. */
  ghost predicate NoInversion(xs: seq<Movie>)
  {
    forall x, y :: x in xs && y in xs && x.score == y.score ==> !Inverted(x.title, y.title)
  }

  /** Every byte of the title is above the tab that starts the suffix. */
  predicate Plain(a: string)
  {
    forall i :: 0 <= i < |a| ==> a[i] > '\t'
  }

  // ----- strcmp is a strict total order

  /** The first byte in which two titles differ decides, and a title precedes those that extend it. */
  lemma {:induction false} LessIsStrcmp(a: string, b: string)
    ensures Less(a, b) <==>
              exists k :: 0 <= k <= |a| && k < |b| && a[..k] == b[..k] && (k == |a| || a[k] < b[k])
  {
    if b != [] && a == [] {
      assert a[..0] == b[..0];
    } else if b != [] && a[0] != b[0] {
      assert a[..0] == b[..0];
      assert forall k :: 0 < k <= |a| && k < |b| ==> a[..k][0] == a[0] && b[..k][0] == b[0];
    } else if b != [] {
      LessIsStrcmp(a[1..], b[1..]);
      if Less(a, b) {
        var k :| 0 <= k <= |a[1..]| && k < |b[1..]| && a[1..][..k] == b[1..][..k]
                 && (k == |a[1..]| || a[1..][k] < b[1..][k]);
        assert a[..k + 1] == [a[0]] + a[1..][..k] && b[..k + 1] == [b[0]] + b[1..][..k];
      }
      if k :| 0 <= k <= |a| && k < |b| && a[..k] == b[..k] && (k == |a| || a[k] < b[k]) {
        assert k > 0;
        assert a[1..][..k - 1] == a[..k][1..] && b[1..][..k - 1] == b[..k][1..];
      }
    }
  }

  lemma {:induction false} LessTotal(a: string, b: string)
    ensures !(Less(a, b) && Less(b, a))
    ensures Less(a, b) || Less(b, a) <==> a != b
  {
    if a != [] && b != [] && a[0] == b[0] {
      LessTotal(a[1..], b[1..]);
      assert a == [a[0]] + a[1..] && b == [b[0]] + b[1..];
    }
  }

  lemma {:induction false} LessTransitive(a: string, b: string, c: string)
    requires Less(a, b) && Less(b, c)
    ensures Less(a, c)
  {
    if a != [] && a[0] == b[0] && b[0] == c[0] {
      LessTransitive(a[1..], b[1..], c[1..]);
    }
  }

  lemma BeforeTotal(x: Movie, y: Movie)
    ensures !(Before(x, y) && Before(y, x))
    ensures Before(x, y) || Before(y, x) <==> x != y
  {
    LessTotal(x.title, y.title);
  }

  lemma NotBeforeTransitive(x: Movie, y: Movie, z: Movie)
    requires !Before(y, x) && !Before(z, y)
    ensures !Before(z, x)
  {
    LessTotal(x.title, y.title);
    LessTotal(y.title, z.title);
    LessTotal(x.title, z.title);
    if Less(z.title, x.title) {
      if Less(x.title, y.title) {
        LessTransitive(z.title, x.title, y.title);
      }
    }
  }

  // ----- what the suffix does to the order

  /** Exactly when the suffix keeps the order of two titles: unless one of them is Inverted
      with respect to the other. */
  lemma {:induction false} SuffixOrder(a: string, b: string)
    ensures Less(a + SECRET, b + SECRET) <==> (Less(a, b) && !Inverted(a, b)) || Inverted(b, a)
  {
    if a == [] || b == [] {
      assert [] + SECRET == SECRET;
      LessTotal(a + SECRET, b + SECRET);
      if a == [] {
        assert b[|a|..] == b && b[..|a|] == a;
      } else {
        assert a[|b|..] == a && a[..|b|] == b;
      }
    } else {
      assert (a + SECRET)[1..] == a[1..] + SECRET;
      assert (b + SECRET)[1..] == b[1..] + SECRET;
      if a[0] == b[0] {
        SuffixOrder(a[1..], b[1..]);
        InvertedTail(a, b);
        InvertedTail(b, a);
      } else {
        assert |a| <= |b| ==> b[..|a|][0] == b[0];
        assert |b| <= |a| ==> a[..|b|][0] == a[0];
      }
    }
  }

  lemma InvertedTail(a: string, b: string)
    requires a != [] && b != [] && a[0] == b[0]
    ensures Inverted(a, b) <==> Inverted(a[1..], b[1..])
  {
    if |a| < |b| {
      assert b[|a|..] == b[1..][|a[1..]|..];
      assert b[1..][..|a[1..]|] == b[..|a|][1..];
      assert b[..|a|] == [b[0]] + b[..|a|][1..];
      assert a == [a[0]] + a[1..];
    }
  }

  lemma PlainNotInverted(a: string, b: string)
    requires Plain(b)
    ensures !Inverted(a, b)
  {
    if |a| < |b| {
      assert (b[|a|..] + SECRET)[0] == b[|a|];
    }
  }

  /** Titles whose bytes are all above the tab keep their order. */
  lemma PlainNoInversion(xs: seq<Movie>)
    requires forall x :: x in xs ==> Plain(x.title)
    ensures NoInversion(xs)
  {
    forall x, y | x in xs && y in xs && x.score == y.score
      ensures !Inverted(x.title, y.title)
    {
      PlainNotInverted(x.title, y.title);
    }
  }

  /** Without that condition the order can change: a title that extends another one by a tab. */
  lemma InversionExample()
    ensures Less("Up", "Up\t") && Inverted("Up", "Up\t")
    ensures Less("Up\t" + SECRET, "Up" + SECRET)
  {
    var r := "Up\t"[|"Up"|..] + SECRET;
    assert "Up\t"[|"Up"|..] == "\t";
    assert r[0] == SECRET[0] && r[1] == '\t' && SECRET[1] == '[';
    assert Less(r[1..], SECRET[1..]);
    assert "Up\t"[..|"Up"|] == "Up";
    assert "Up\t"[1..] == "p\t" && "Up"[1..] == "p" && "p\t"[1..] == "\t" && "p"[1..] == "";
    assert Less("\t", "") || Less("", "\t");
    assert Less("p", "p\t");
    SuffixOrder("Up\t", "Up");
  }

  // ----- sequences of movies

  lemma FirstOfSorted(xs: seq<Movie>, y: Movie)
    requires Sorted(xs) && y in xs
    ensures !Before(y, xs[0])
  {
    BeforeTotal(y, y);
    var k :| 0 <= k < |xs| && xs[k] == y;
  }

  lemma TailMultiset(xs: seq<Movie>)
    requires xs != []
    ensures multiset(xs[1..]) == multiset(xs) - multiset{xs[0]}
  {
    assert xs == [xs[0]] + xs[1..];
  }

  /** A collection of movies can be listed in order in one way only. */
  lemma {:induction false} SortedUnique(xs: seq<Movie>, ys: seq<Movie>)
    requires Sorted(xs) && Sorted(ys) && multiset(xs) == multiset(ys)
    ensures xs == ys
  {
    assert |xs| == |multiset(xs)| == |multiset(ys)| == |ys|;
    if xs != [] {
      assert xs[0] in multiset(ys) && ys[0] in multiset(xs);
      FirstOfSorted(xs, ys[0]);
      FirstOfSorted(ys, xs[0]);
      BeforeTotal(xs[0], ys[0]);
      TailMultiset(xs);
      TailMultiset(ys);
      SortedUnique(xs[1..], ys[1..]);
      assert xs == [xs[0]] + xs[1..] && ys == [ys[0]] + ys[1..];
    }
  }

  lemma AddSecretsConcat(xs: seq<Movie>, ys: seq<Movie>)
    ensures AddSecrets(xs + ys) == AddSecrets(xs) + AddSecrets(ys)
  {
  }

  /** Rearranging the movies rearranges the rewritten movies. */
  lemma {:induction false} AddSecretsPermutes(xs: seq<Movie>, ys: seq<Movie>)
    requires multiset(xs) == multiset(ys)
    ensures multiset(AddSecrets(xs)) == multiset(AddSecrets(ys))
  {
    assert |xs| == |multiset(xs)| == |multiset(ys)| == |ys|;
    if xs != [] {
      assert xs[0] in multiset(ys);
      var k :| 0 <= k < |ys| && ys[k] == xs[0];
      var rest := ys[..k] + ys[k + 1..];
      assert xs == [xs[0]] + xs[1..] && ys == ys[..k] + [ys[k]] + ys[k + 1..];
      assert multiset(rest) == multiset(ys) - multiset{ys[k]};
      TailMultiset(xs);
      AddSecretsPermutes(xs[1..], rest);
      AddSecretsConcat([xs[0]], xs[1..]);
      AddSecretsConcat(ys[..k], [ys[k]]);
      AddSecretsConcat(ys[..k] + [ys[k]], ys[k + 1..]);
      AddSecretsConcat(ys[..k], ys[k + 1..]);
    }
  }
}
