/** `absl::StrSplit` with `absl::SkipEmpty`, and `absl::StrJoin`, for one separator. */
module Splitting {
  import opened Sequences

  /** The index of the first separator, or the length. */
  function First(s: string, sep: char): (i: nat)
    ensures i <= |s|
    ensures forall j :: 0 <= j < i ==> s[j] != sep
    ensures i < |s| ==> s[i] == sep
  {
    if s == "" || s[0] == sep then 0 else 1 + First(s[1..], sep)
  }

  /** The non-empty pieces between separators. */
  function Pieces(s: string, sep: char): seq<string>
    decreases |s|
  {
    if s == "" then []
    else if s[0] == sep then Pieces(s[1..], sep)
    else [s[..First(s, sep)]] + Pieces(s[First(s, sep)..], sep)
  }

  function JoinWith(parts: seq<string>, sep: char): string {
    if parts == [] then "" else if |parts| == 1 then parts[0] else parts[0] + [sep] + JoinWith(parts[1..], sep)
  }

  predicate Piece(c: string, sep: char) {
    c != "" && sep !in c
  }

  lemma {:induction false} PiecesArePieces(s: string, sep: char)
    ensures forall c :: c in Pieces(s, sep) ==> Piece(c, sep)
    decreases |s|
  {
    if s != "" {
      if s[0] == sep {
        PiecesArePieces(s[1..], sep);
      } else {
        PiecesArePieces(s[First(s, sep)..], sep);
      }
    }
  }

  lemma {:induction false} FirstAppend(a: string, b: string, sep: char)
    ensures First(a + [sep] + b, sep) == First(a, sep)
  {
    if a != "" && a[0] != sep {
      assert (a + [sep] + b)[1..] == a[1..] + [sep] + b;
      FirstAppend(a[1..], b, sep);
    }
  }

  lemma {:induction false} FirstWord(w: string, rest: string, sep: char)
    requires sep !in w && (rest == "" || rest[0] == sep)
    ensures First(w + rest, sep) == |w|
  {
    if w == "" {
      assert w + rest == rest;
    } else {
      assert w[0] in w && (w + rest)[1..] == w[1..] + rest;
      FirstWord(w[1..], rest, sep);
    }
  }

  /** A word up to a separator is the first piece. */
  lemma PiecesWord(w: string, rest: string, sep: char)
    requires Piece(w, sep) && (rest == "" || rest[0] == sep)
    ensures Pieces(w + rest, sep) == [w] + Pieces(rest, sep)
  {
    FirstWord(w, rest, sep);
    assert (w + rest)[0] in w;
    assert (w + rest)[..|w|] == w && (w + rest)[|w|..] == rest;
  }

  lemma WordAppend(w: string, rest: string, longer: string, more: seq<string>, sep: char)
    requires Piece(w, sep) && (rest == "" || rest[0] == sep) && longer != "" && longer[0] == sep
    requires Pieces(longer, sep) == Pieces(rest, sep) + more
    ensures Pieces(w + longer, sep) == Pieces(w + rest, sep) + more
  {
    PiecesWord(w, rest, sep);
    PiecesWord(w, longer, sep);
    Associates([w], Pieces(rest, sep), more);
  }

  /** Splitting distributes over a separator. */
  lemma {:induction false} PiecesAppend(a: string, b: string, sep: char)
    ensures Pieces(a + [sep] + b, sep) == Pieces(a, sep) + Pieces(b, sep)
    decreases |a|
  {
    var s := a + [sep] + b;
    if a == "" {
      assert s[1..] == b;
    } else if a[0] == sep {
      assert s[1..] == a[1..] + [sep] + b;
      PiecesAppend(a[1..], b, sep);
    } else {
      var i := First(a, sep);
      assert a == a[..i] + a[i..] && s == a[..i] + (a[i..] + [sep] + b);
      PiecesAppend(a[i..], b, sep);
      WordAppend(a[..i], a[i..], a[i..] + [sep] + b, Pieces(b, sep), sep);
    }
  }

  lemma {:induction false} FirstNone(c: string, sep: char)
    requires sep !in c
    ensures First(c, sep) == |c|
  {
    if c != "" {
      assert c[0] in c;
      FirstNone(c[1..], sep);
    }
  }

  lemma PiecesOne(c: string, sep: char)
    requires Piece(c, sep)
    ensures Pieces(c, sep) == [c]
  {
    FirstNone(c, sep);
    assert c[0] in c;
    assert c[..|c|] == c && c[|c|..] == "";
  }

  /** Splitting undoes joining. */
  lemma {:induction false} PiecesJoin(cs: seq<string>, sep: char)
    requires forall c :: c in cs ==> Piece(c, sep)
    ensures Pieces(JoinWith(cs, sep), sep) == cs
  {
    if |cs| == 1 {
      PiecesOne(cs[0], sep);
    } else if cs != [] {
      PiecesJoin(cs[1..], sep);
      PiecesOne(cs[0], sep);
      PiecesAppend(cs[0], JoinWith(cs[1..], sep), sep);
    }
  }
}
