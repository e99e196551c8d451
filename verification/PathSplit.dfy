/**
 splitPath of the payment handlers: a byte loop that collects the non-empty pieces
 between slashes. Each byte is appended as a code point, so a byte of 128 or more
 turns into the two bytes of its UTF-8 encoding.
 */
module PathSplit {
  import opened ByteStrings

  const SLASH: byte := 47

  /** UTF-8 encoding (RFC 3629, section 3) of the code point with the value of one byte. */
  function Encode(c: byte): (r: Bytes)
    ensures r == [c] <==> c < 128
    ensures c >= 128 ==> |r| == 2 && 192 <= r[0] < 196 && 128 <= r[1] < 192 && (r[0] - 192) * 64 + (r[1] - 128) == c
  {
    if c < 128 then [c] else [192 + c / 64, 128 + c % 64]
  }

  function EncodeAll(s: Bytes): Bytes {
    if s == [] then [] else EncodeAll(s[..|s| - 1]) + Encode(s[|s| - 1])
  }

  // ---------- the pieces of a path ----------

  /** What the loop has after a prefix of the path: the finished pieces and the current one. */
  datatype Scanned = Scanned(parts: seq<Bytes>, cur: Bytes)

  function Flushed(s: Scanned): seq<Bytes> { if s.cur != [] then s.parts + [s.cur] else s.parts }

  /** Scanning with a given treatment of each byte. */
  function Scan(p: Bytes, raw: bool): Scanned {
    if p == [] then Scanned([], [])
    else
      var s, c := Scan(p[..|p| - 1], raw), p[|p| - 1];
      if c == SLASH then Scanned(Flushed(s), [])
      else Scanned(s.parts, s.cur + if raw then [c] else Encode(c))
  }

  /** The pieces of a path, bytes kept as they are. */
  function Pieces(p: Bytes): seq<Bytes> { Flushed(Scan(p, true)) }

  method SplitPath(p: Bytes) returns (parts: seq<Bytes>)
    ensures parts == EachEncoded(Pieces(p))
  {
    parts := [];
    var cur: Bytes := [];
    for i := 0 to |p|
      invariant Scanned(parts, cur) == Scan(p[..i], false)
    {
      assert p[..i + 1][..i] == p[..i];
      var c := p[i];
      if c == SLASH {
        if cur != [] {
          parts := parts + [cur];
          cur := [];
        }
        continue;
      }
      cur := cur + Encode(c);
    }
    assert p[..|p|] == p;
    if cur != [] {
      parts := parts + [cur];
    }
    ScanEncodes(p);
  }

  function EachEncoded(ps: seq<Bytes>): seq<Bytes> {
    if ps == [] then [] else EachEncoded(ps[..|ps| - 1]) + [EncodeAll(ps[|ps| - 1])]
  }

  lemma EachEncodedAppend(ps: seq<Bytes>, s: Bytes)
    ensures EachEncoded(ps + [s]) == EachEncoded(ps) + [EncodeAll(s)]
  {
    assert (ps + [s])[..|ps|] == ps;
  }

  lemma EncodeAllAppend(s: Bytes, c: byte)
    ensures EncodeAll(s + [c]) == EncodeAll(s) + Encode(c)
  {
    assert (s + [c])[..|s|] == s;
  }

  /** The loop's pieces are the raw ones, encoded byte by byte. */
  lemma {:induction false} ScanEncodes(p: Bytes)
    ensures Scan(p, false) == Scanned(EachEncoded(Scan(p, true).parts), EncodeAll(Scan(p, true).cur))
    ensures Scan(p, false).cur == [] <==> Scan(p, true).cur == []
    ensures Flushed(Scan(p, false)) == EachEncoded(Pieces(p))
  {
    if p != [] {
      var raw := Scan(p[..|p| - 1], true);
      ScanEncodes(p[..|p| - 1]);
      EachEncodedAppend(raw.parts, raw.cur);
      EncodeAllAppend(raw.cur, p[|p| - 1]);
    }
    EachEncodedAppend(Scan(p, true).parts, Scan(p, true).cur);
  }

  // ---------- what the pieces are ----------

  predicate SlashFree(s: Bytes) { 47 !in s }

  ghost predicate GoodPieces(ps: seq<Bytes>) { forall i :: 0 <= i < |ps| ==> ps[i] != [] && SlashFree(ps[i]) }

  /** Non-empty, slash-free. */
  lemma {:induction false} PiecesAreGood(p: Bytes)
    ensures GoodPieces(Scan(p, true).parts) && SlashFree(Scan(p, true).cur) && GoodPieces(Pieces(p))
  {
    if p != [] {
      PiecesAreGood(p[..|p| - 1]);
    }
  }

  /** Scanning on from where a prefix left off. */
  function ScanFrom(s: Scanned, q: Bytes): Scanned {
    if q == [] then s
    else
      var t, c := ScanFrom(s, q[..|q| - 1]), q[|q| - 1];
      if c == SLASH then Scanned(Flushed(t), []) else Scanned(t.parts, t.cur + [c])
  }

  lemma {:induction false} ScanConcat(p: Bytes, q: Bytes)
    ensures Scan(p + q, true) == ScanFrom(Scan(p, true), q)
    decreases |q|
  {
    if q == [] {
      assert p + q == p;
    } else {
      assert (p + q)[..|p + q| - 1] == p + q[..|q| - 1];
      ScanConcat(p, q[..|q| - 1]);
    }
  }

  lemma {:induction false} ScanSlashFree(s: Scanned, q: Bytes)
    requires SlashFree(q)
    ensures ScanFrom(s, q) == Scanned(s.parts, s.cur + q)
    decreases |q|
  {
    if q == [] {
      assert s.cur + q == s.cur;
    } else {
      var front := q[..|q| - 1];
      assert q[|q| - 1] in q && forall c :: c in front ==> c in q;
      ScanSlashFree(s, front);
      assert s.cur + front + [q[|q| - 1]] == s.cur + q;
    }
  }

  /** Pieces joined by single slashes, with a slash in front of each. */
  function Join(ps: seq<Bytes>): Bytes {
    if ps == [] then [] else Join(ps[..|ps| - 1]) + [47] + ps[|ps| - 1]
  }

  lemma ScanFromNothing(q: Bytes)
    ensures Scan(q, true) == ScanFrom(Scanned([], []), q)
  {
    ScanConcat([], q);
    assert [] + q == q;
  }

  lemma PieceItself(s: Bytes)
    requires s != [] && SlashFree(s)
    ensures Pieces(s) == [s]
  {
    ScanFromNothing(s);
    ScanSlashFree(Scanned([], []), s);
    assert [] + s == s;
  }

  lemma {:induction false} ScanFromParts(s: Scanned, parts: seq<Bytes>, q: Bytes)
    ensures ScanFrom(Scanned(parts + s.parts, s.cur), q)
            == Scanned(parts + ScanFrom(s, q).parts, ScanFrom(s, q).cur)
    decreases |q|
  {
    if q != [] {
      ScanFromParts(s, parts, q[..|q| - 1]);
      var t := ScanFrom(s, q[..|q| - 1]);
      assert parts + t.parts + [t.cur] == parts + (t.parts + [t.cur]);
    }
  }

  lemma ScanAtSlash(p: Bytes)
    ensures Scan(p + [SLASH], true) == Scanned(Pieces(p), [])
  {
    assert (p + [SLASH])[..|p|] == p;
  }

  lemma FlushedAfter(parts: seq<Bytes>, t: Scanned)
    ensures Flushed(Scanned(parts + t.parts, t.cur)) == parts + Flushed(t)
  {
    assert parts + t.parts + [t.cur] == parts + (t.parts + [t.cur]);
  }

  /** A slash separates: the pieces of p/q are those of p followed by those of q. */
  lemma SplitAtSlash(p: Bytes, q: Bytes)
    ensures Pieces(p + ([SLASH] + q)) == Pieces(p) + Pieces(q)
  {
    assert p + ([SLASH] + q) == (p + [SLASH]) + q;
    ScanAtSlash(p);
    ScanConcat(p + [SLASH], q);
    ScanFromNothing(q);
    assert Pieces(p) + [] == Pieces(p);
    ScanFromParts(Scanned([], []), Pieces(p), q);
    FlushedAfter(Pieces(p), Scan(q, true));
  }

  /** Joining any non-empty slash-free pieces and splitting gives them back. */
  lemma {:induction false} SplitOfJoin(ps: seq<Bytes>)
    requires GoodPieces(ps)
    ensures Pieces(Join(ps)) == ps
  {
    if ps != [] {
      var front, last := ps[..|ps| - 1], ps[|ps| - 1];
      SplitOfJoin(front);
      SplitAtSlash(Join(front), last);
      assert Join(ps) == Join(front) + ([SLASH] + last);
      PieceItself(last);
      assert ps == front + [last];
    }
  }

  /** Leading, trailing and repeated slashes do not change the pieces. */
  lemma ExtraSlashes(p: Bytes, q: Bytes)
    ensures Pieces([SLASH] + p) == Pieces(p) == Pieces(p + [SLASH])
    ensures Pieces(p + ([SLASH] + ([SLASH] + q))) == Pieces(p + ([SLASH] + q))
  {
    SplitAtSlash([], p);
    assert [] + ([SLASH] + p) == [SLASH] + p;
    SplitAtSlash(p, []);
    assert [SLASH] + [] == [SLASH];
    assert Pieces([]) == [];
    SplitAtSlash(p, [SLASH] + q);
    SplitAtSlash([], q);
    assert [] + ([SLASH] + q) == [SLASH] + q;
    SplitAtSlash(p, q);
  }

  /** Normalising keeps the pieces, and two paths have the same pieces iff they have the same normal form. */
  lemma NormalForm(p: Bytes, q: Bytes)
    ensures Pieces(Join(Pieces(p))) == Pieces(p)
    ensures Pieces(p) == Pieces(q) <==> Join(Pieces(p)) == Join(Pieces(q))
  {
    PiecesAreGood(p);
    SplitOfJoin(Pieces(p));
    PiecesAreGood(q);
    SplitOfJoin(Pieces(q));
  }

  // ---------- when the result is the pieces themselves ----------

  predicate Ascii(s: Bytes) { forall i :: 0 <= i < |s| ==> s[i] < 128 }

  predicate AllAscii(ps: seq<Bytes>) { forall i :: 0 <= i < |ps| ==> Ascii(ps[i]) }

  lemma AsciiAppend(s: Bytes, c: byte)
    ensures Ascii(s + [c]) <==> Ascii(s) && c < 128
  {
    if Ascii(s + [c]) {
      assert (s + [c])[|s|] == c;
      forall i | 0 <= i < |s| ensures s[i] < 128 {
        assert (s + [c])[i] == s[i];
      }
    }
  }

  lemma AllAsciiAppend(ps: seq<Bytes>, s: Bytes)
    ensures AllAscii(ps + [s]) <==> AllAscii(ps) && Ascii(s)
  {
    if AllAscii(ps + [s]) {
      assert (ps + [s])[|ps|] == s;
      forall i | 0 <= i < |ps| ensures Ascii(ps[i]) {
        assert (ps + [s])[i] == ps[i];
      }
    }
  }

  lemma {:induction false} EncodedIffAscii(s: Bytes)
    ensures |EncodeAll(s)| >= |s|
    ensures |EncodeAll(s)| == |s| <==> Ascii(s)
    ensures Ascii(s) ==> EncodeAll(s) == s
  {
    if s != [] {
      var front, c := s[..|s| - 1], s[|s| - 1];
      EncodedIffAscii(front);
      assert s == front + [c];
      AsciiAppend(front, c);
      assert EncodeAll(s) == EncodeAll(front) + Encode(c);
      assert |Encode(c)| == 1 <==> c < 128;
    }
  }

  lemma {:induction false} EachEncodedIff(ps: seq<Bytes>)
    ensures |EachEncoded(ps)| == |ps|
    ensures EachEncoded(ps) == ps <==> AllAscii(ps)
  {
    if ps != [] {
      var front, last := ps[..|ps| - 1], ps[|ps| - 1];
      EachEncodedIff(front);
      EncodedIffAscii(last);
      AllAsciiAppend(front, last);
      assert ps == front + [last];
      assert EachEncoded(ps) == ps ==> EachEncoded(front) == front && EncodeAll(last) == last by {
        assert EachEncoded(ps)[..|front|] == EachEncoded(front) && EachEncoded(ps)[|front|] == EncodeAll(last);
        assert ps[..|front|] == front && ps[|front|] == last;
      }
    }
  }

  lemma {:induction false} PiecesAsciiIff(p: Bytes)
    ensures Ascii(p) <==> Ascii(Scan(p, true).cur) && AllAscii(Scan(p, true).parts)
    ensures Ascii(p) <==> AllAscii(Pieces(p))
  {
    if p != [] {
      var front, c := p[..|p| - 1], p[|p| - 1];
      var t := Scan(front, true);
      PiecesAsciiIff(front);
      AsciiAppend(front, c);
      AsciiAppend(t.cur, c);
      AllAsciiAppend(t.parts, t.cur);
      assert p == front + [c];
    }
    AllAsciiAppend(Scan(p, true).parts, Scan(p, true).cur);
  }

  /** splitPath returns the pieces themselves exactly when the path is ASCII. */
  lemma ExactIffAscii(p: Bytes)
    ensures EachEncoded(Pieces(p)) == Pieces(p) <==> Ascii(p)
  {
    EachEncodedIff(Pieces(p));
    PiecesAsciiIff(p);
  }

  /**
   The invoice handler's look-up: whatever comes before it, the last element that splitPath
   returns is the encoding of what follows the last slash, and that itself iff it is ASCII.
   */
  lemma LastPieceIsID(p: Bytes, id: Bytes)
    requires id != [] && SlashFree(id)
    ensures var parts := EachEncoded(Pieces(p + ([SLASH] + id)));
            && parts != [] && parts[|parts| - 1] == EncodeAll(id)
            && (parts[|parts| - 1] == id <==> Ascii(id))
  {
    SplitAtSlash(p, id);
    PieceItself(id);
    EachEncodedAppend(Pieces(p), id);
    EncodedIffAscii(id);
  }
}
