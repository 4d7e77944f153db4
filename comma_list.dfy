/** The comma-list convention of the two forms: a list is edited as
    `items.join(', ')` and read back with
    `text.split(',').map(x => x.trim()).filter(Boolean)`. */
module CommaList {
  import opened JsStrings

  /** An item the convention can carry: non-empty, trimmed, comma-free. */
  predicate IsCleanItem(x: string) {
    x != [] && IsTrimmed(x) && ',' !in x
  }

  predicate AllClean(xs: seq<string>) {
    forall i :: 0 <= i < |xs| ==> IsCleanItem(xs[i])
  }

  /** `.map(x => x.trim()).filter(Boolean)` over split pieces: each piece
      trimmed, the empty results dropped. Which items come out, and in
      which order, is stated by TrimAndDropEmptyMembers and
      TrimAndDropEmptyOfConcat. */
  function TrimAndDropEmpty(pieces: seq<string>): (items: seq<string>)
    ensures |items| <= |pieces|
    ensures forall i :: 0 <= i < |items| ==> items[i] != [] && IsTrimmed(items[i])
  {
    if pieces == [] then []
    else
      var t := Trim(pieces[0]);
      if t == [] then TrimAndDropEmpty(pieces[1..]) else [t] + TrimAndDropEmpty(pieces[1..])
  }

  /** Pieces free of commas give clean items. */
  lemma {:induction false} TrimAndDropEmptyCommaFree(pieces: seq<string>)
    requires forall j :: 0 <= j < |pieces| ==> ',' !in pieces[j]
    ensures AllClean(TrimAndDropEmpty(pieces))
  {
    if pieces != [] {
      var rest := pieces[1..];
      assert forall j :: 0 <= j < |rest| ==> ',' !in rest[j] by {
        forall j | 0 <= j < |rest| ensures ',' !in rest[j] {
          assert rest[j] == pieces[j + 1];
        }
      }
      TrimAndDropEmptyCommaFree(rest);
      var t := Trim(pieces[0]);
      if t != [] {
        assert ',' !in t;
        assert TrimAndDropEmpty(pieces) == [t] + TrimAndDropEmpty(rest);
        AllCleanConcat([t], TrimAndDropEmpty(rest));
      }
    }
  }

  lemma AllCleanConcat(a: seq<string>, b: seq<string>)
    requires AllClean(a) && AllClean(b)
    ensures AllClean(a + b)
  {
    forall i | 0 <= i < |a + b| ensures IsCleanItem((a + b)[i]) {
      if i < |a| {
        assert (a + b)[i] == a[i];
      } else {
        assert (a + b)[i] == b[i - |a|];
      }
    }
  }

  /** The items are exactly the non-empty trims of the pieces. */
  lemma {:induction false} TrimAndDropEmptyMembers(pieces: seq<string>)
    ensures forall x :: x in TrimAndDropEmpty(pieces) <==> x != [] && exists p :: p in pieces && Trim(p) == x
  {
    if pieces != [] {
      var t := Trim(pieces[0]);
      var rest := pieces[1..];
      TrimAndDropEmptyMembers(rest);
      var head := if t == [] then [] else [t];
      assert TrimAndDropEmpty(pieces) == head + TrimAndDropEmpty(rest);
      forall x
        ensures x in TrimAndDropEmpty(pieces) <==> x != [] && exists p :: p in pieces && Trim(p) == x
      {
        if x in TrimAndDropEmpty(pieces) {
          if x in head {
            assert pieces[0] in pieces;
          } else {
            var p :| p in rest && Trim(p) == x;
            assert p in pieces;
          }
        }
        if x != [] && exists p :: p in pieces && Trim(p) == x {
          var p :| p in pieces && Trim(p) == x;
          if p != pieces[0] {
            assert p in rest;
          }
        }
      }
    }
  }

  /** The items of a concatenation of pieces are the items of each part,
      in order. */
  lemma {:induction false} TrimAndDropEmptyOfConcat(a: seq<string>, b: seq<string>)
    ensures TrimAndDropEmpty(a + b) == TrimAndDropEmpty(a) + TrimAndDropEmpty(b)
  {
    if a == [] {
      assert a + b == b;
    } else {
      assert (a + b)[0] == a[0];
      assert (a + b)[1..] == a[1..] + b;
      TrimAndDropEmptyOfConcat(a[1..], b);
    }
  }

  /** Reads a comma list: only clean items come out. */
  function ParseCommaList(text: string): (items: seq<string>)
    ensures AllClean(items)
  {
    var pieces := Split(text, ',');
    TrimAndDropEmptyCommaFree(pieces);
    TrimAndDropEmpty(pieces)
  }

  /** The items read are exactly the non-empty trims of the
      comma-separated pieces of the text. */
  lemma ParseCommaListMembers(text: string)
    ensures forall x :: x in ParseCommaList(text) <==> x != [] && exists p :: p in Split(text, ',') && Trim(p) == x
  {
    TrimAndDropEmptyMembers(Split(text, ','));
  }

  /** Reading text with a comma between `a` and `b` reads each side on its
      own and puts the items of `a` first. */
  lemma ParseAtComma(a: string, b: string)
    ensures ParseCommaList(a + "," + b) == ParseCommaList(a) + ParseCommaList(b)
  {
    SplitAtSeparator(a, ',', b);
    TrimAndDropEmptyOfConcat(Split(a, ','), Split(b, ','));
  }

  /** Text without a comma reads as its trim, or as nothing when that is
      empty. */
  lemma ParseWithoutComma(text: string)
    requires ',' !in text
    ensures ParseCommaList(text) == if Trim(text) == [] then [] else [Trim(text)]
  {
    SplitWithoutSeparator(text, ',');
  }

  /** The list edited as text. */
  function JoinCommaList(items: seq<string>): string {
    Join(items, ", ")
  }

  /** One space in front of every item. */
  function Spaced(xs: seq<string>): (r: seq<string>)
    ensures |r| == |xs|
    ensures forall i :: 0 <= i < |xs| ==> r[i] == " " + xs[i]
  {
    if xs == [] then [] else [" " + xs[0]] + Spaced(xs[1..])
  }

  /** Splitting a `", "`-joined list (behind some leading spaces) on `','`
      gives the first item with those spaces, then every later item behind
      one space. */
  lemma {:induction false} SplitJoined(pad: string, xs: seq<string>)
    requires |xs| >= 1 && AllClean(xs)
    requires forall i :: 0 <= i < |pad| ==> pad[i] == ' '
    ensures Split(pad + JoinCommaList(xs), ',') == [pad + xs[0]] + Spaced(xs[1..])
    decreases |xs|
  {
    var head := pad + xs[0];
    assert forall k :: 0 <= k < |head| ==> head[k] != ',' by {
      forall k | 0 <= k < |head| ensures head[k] != ',' {
        if k < |pad| {
          assert head[k] == pad[k];
        } else {
          assert head[k] == xs[0][k - |pad|];
        }
      }
    }
    if |xs| == 1 {
      assert pad + JoinCommaList(xs) == pad + xs[0];
      SplitWithoutSeparator(pad + xs[0], ',');
    } else {
      var rest := JoinCommaList(xs[1..]);
      assert pad + JoinCommaList(xs) == (pad + xs[0]) + [','] + (" " + rest);
      SplitAfterPiece(pad + xs[0], ',', " " + rest);
      SplitJoined(" ", xs[1..]);
      assert Spaced(xs[1..]) == [" " + xs[1]] + Spaced(xs[2..]);
    }
  }

  /** Trimming one leading space off each clean item and keeping them all
      gives the items back. */
  lemma {:induction false} TrimSpaced(xs: seq<string>)
    requires AllClean(xs)
    ensures TrimAndDropEmpty(Spaced(xs)) == xs
  {
    if xs != [] {
      var ys := Spaced(xs);
      TrimAfterSpaces(" ", xs[0]);
      assert Trim(ys[0]) == xs[0];
      assert ys[1..] == Spaced(xs[1..]);
      TrimSpaced(xs[1..]);
      assert TrimAndDropEmpty(ys) == [xs[0]] + TrimAndDropEmpty(ys[1..]);
      assert [xs[0]] + xs[1..] == xs;
    }
  }

  /** Editing and saving without changes gives back exactly the list, for
      every list of clean items (the empty list included). */
  lemma ParseJoinedList(xs: seq<string>)
    requires AllClean(xs)
    ensures ParseCommaList(JoinCommaList(xs)) == xs
  {
    if xs == [] {
      assert JoinCommaList(xs) == [];
      ParseEmptyText();
    } else {
      ParseJoinedNonEmpty(xs);
    }
  }

  /** Empty text reads as the empty list. */
  lemma ParseEmptyText()
    ensures ParseCommaList([]) == []
  {
    ParseWithoutComma([]);
    TrimOfTrimmed([]);
  }

  lemma ParseJoinedNonEmpty(xs: seq<string>)
    requires |xs| >= 1 && AllClean(xs)
    ensures ParseCommaList(JoinCommaList(xs)) == xs
  {
    var text := JoinCommaList(xs);
    var pieces := [xs[0]] + Spaced(xs[1..]);
    assert Split(text, ',') == pieces by {
      SplitJoined("", xs);
      assert "" + text == text;
      assert "" + xs[0] == xs[0];
    }
    assert TrimAndDropEmpty(pieces) == [xs[0]] + TrimAndDropEmpty(Spaced(xs[1..])) by {
      TrimOfTrimmed(xs[0]);
      assert pieces[0] == xs[0];
      assert pieces[1..] == Spaced(xs[1..]);
    }
    TrimSpaced(xs[1..]);
    assert [xs[0]] + xs[1..] == xs;
  }

  /** Reading is idempotent on its own output: parsing a parsed list
      written back as text changes nothing. */
  lemma ParseIsStable(text: string)
    ensures ParseCommaList(JoinCommaList(ParseCommaList(text))) == ParseCommaList(text)
  {
    ParseJoinedList(ParseCommaList(text));
  }
}
