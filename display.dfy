/**
 * The page's text output: escapeHtml, which guards the log rows appendLog writes as HTML
 * (app.js:66-80), and the photo grid that showPhoto's image events fill and trimPhotoGrid
 * keeps at state.maxPhotos tiles (app.js:274-300).
 */
module Display {

  // ---------------------------------------------------------------------------
  // escapeHtml

  /** The characters of the class [&<>"]. */
  predicate IsSpecial(c: char) {
    c == '&' || c == '<' || c == '>' || c == '"'
  }

  /** The entry of escapeHtml's lookup object for one character; other characters stand for themselves. */
  function Entity(c: char): (r: string)
    ensures IsSpecial(c) <==> r != [c]
    ensures forall k :: 0 <= k < |r| ==> r[k] != '<' && r[k] != '>' && r[k] != '"'
  {
    if c == '&' then "&amp;"
    else if c == '<' then "&lt;"
    else if c == '>' then "&gt;"
    else if c == '"' then "&quot;"
    else [c]
  }

  /** The length of the run of special characters that s starts with. */
  function RunLength(s: string): (n: nat)
    ensures n <= |s|
    ensures forall k :: 0 <= k < n ==> IsSpecial(s[k])
    ensures n < |s| ==> !IsSpecial(s[n])
    decreases |s|
  {
    if s == [] || !IsSpecial(s[0]) then 0 else 1 + RunLength(s[1..])
  }

  /**
   * What one match of /[&<>"]+/ is replaced by. The lookup object only has single characters
   * as keys, so a run of two or more finds no entry, and the replacement is `undefined` as a string.
   */
  function Replacement(run: string): string {
    if |run| == 1 then Entity(run[0]) else "undefined"
  }

  /** escapeHtml (app.js:78-80) as written: every maximal run of special characters is replaced as a whole. */
  function EscapeHtml(s: string): (r: string)
    ensures forall k :: 0 <= k < |r| ==> r[k] != '<' && r[k] != '>' && r[k] != '"'
    decreases |s|
  {
    if s == [] then []
    else if IsSpecial(s[0]) then
      var n := RunLength(s);
      Replacement(s[..n]) + EscapeHtml(s[n..])
    else [s[0]] + EscapeHtml(s[1..])
  }

  /** escapeHtml as evidently intended: each special character becomes its entity. */
  function EscapeHtmlPerChar(s: string): (r: string)
    ensures |r| >= |s|
    ensures forall k :: 0 <= k < |r| ==> r[k] != '<' && r[k] != '>' && r[k] != '"'
    decreases |s|
  {
    if s == [] then [] else Entity(s[0]) + EscapeHtmlPerChar(s[1..])
  }

  /** What an HTML parser reads back from text escaped with these four entities. */
  function Unescape(s: string): string
    decreases |s|
  {
    if s == [] then []
    else if |s| >= 5 && s[..5] == "&amp;" then "&" + Unescape(s[5..])
    else if |s| >= 4 && s[..4] == "&lt;" then "<" + Unescape(s[4..])
    else if |s| >= 4 && s[..4] == "&gt;" then ">" + Unescape(s[4..])
    else if |s| >= 6 && s[..6] == "&quot;" then "\"" + Unescape(s[6..])
    else [s[0]] + Unescape(s[1..])
  }

  /** Reading back one escaped character gives that character. */
  lemma UnescapeEntity(c: char, rest: string)
    ensures Unescape(Entity(c) + rest) == [c] + Unescape(rest)
  {
    if c == '&' {
      UnescapeAmp(rest);
    } else if c == '<' || c == '>' {
      UnescapeAngle(c, rest);
    } else if c == '"' {
      UnescapeQuot(rest);
    } else {
      UnescapePlain(c, rest);
    }
  }

  lemma UnescapeAmp(rest: string)
    ensures Unescape("&amp;" + rest) == "&" + Unescape(rest)
  {
    var t := "&amp;" + rest;
    assert t[..5] == "&amp;" && t[5..] == rest;
  }

  /** The two four-character entities, "&lt;" and "&gt;". */
  lemma UnescapeAngle(c: char, rest: string)
    requires c == '<' || c == '>'
    ensures Unescape(Entity(c) + rest) == [c] + Unescape(rest)
  {
    var t := Entity(c) + rest;
    assert t[..4] == Entity(c) && t[4..] == rest;
    assert |t| >= 5 ==> t[..5][1] != 'a';
  }

  lemma UnescapeQuot(rest: string)
    ensures Unescape("&quot;" + rest) == "\"" + Unescape(rest)
  {
    var t := "&quot;" + rest;
    assert t[..6] == "&quot;" && t[6..] == rest;
    assert t[..5][1] == 'q' && t[..4][1] == 'q';
  }

  lemma UnescapePlain(c: char, rest: string)
    requires !IsSpecial(c)
    ensures Unescape([c] + rest) == [c] + Unescape(rest)
  {
    var t := [c] + rest;
    assert t[0] == c && t[1..] == rest;
    assert |t| >= 4 ==> t[..4][0] == c;
    assert |t| >= 5 ==> t[..5][0] == c;
    assert |t| >= 6 ==> t[..6][0] == c;
  }

  /** The corrected escape loses nothing: the browser shows exactly the logged text. */
  lemma {:induction false} UnescapeEscape(s: string)
    ensures Unescape(EscapeHtmlPerChar(s)) == s
    decreases |s|
  {
    if s != [] {
      UnescapeEntity(s[0], EscapeHtmlPerChar(s[1..]));
      UnescapeEscape(s[1..]);
    }
  }

  /** Where no two special characters are adjacent, escapeHtml as written is the per-character escape. */
  lemma {:induction false} EscapeHtmlIsolated(s: string)
    requires forall k :: 0 <= k < |s| - 1 ==> !(IsSpecial(s[k]) && IsSpecial(s[k + 1]))
    ensures EscapeHtml(s) == EscapeHtmlPerChar(s)
    decreases |s|
  {
    if s != [] {
      if IsSpecial(s[0]) {
        if |s| > 1 {
          assert !IsSpecial(s[1..][0]);
        }
        assert RunLength(s) == 1;
        assert s[..1] == [s[0]];
      }
      EscapeHtmlIsolated(s[1..]);
    }
  }

  /** With adjacent special characters the as-written escape loses the text: "<<" is shown as "undefined". */
  lemma EscapeHtmlDoubled(s: string)
    requires s == "<<"
    ensures EscapeHtml(s) == "undefined"
    ensures EscapeHtmlPerChar(s) == "&lt;&lt;"
  {
    assert s[1..][1..] == [];
    assert RunLength(s[1..]) == 1;
    assert RunLength(s) == 2;
    assert s[..2] == s && s[2..] == [];
    assert EscapeHtmlPerChar(s[1..]) == "&lt;";
  }

  /** Text without special characters is left as it is. */
  lemma {:induction false} EscapeHtmlPlain(s: string)
    requires forall k :: 0 <= k < |s| ==> !IsSpecial(s[k])
    ensures EscapeHtml(s) == s && EscapeHtmlPerChar(s) == s
    decreases |s|
  {
    if s != [] {
      EscapeHtmlPlain(s[1..]);
    }
  }

  /** The as-written escape is not invertible: "<<" and the word "undefined" are shown alike. */
  lemma EscapeHtmlCollides(s: string, u: string)
    requires s == "<<" && u == "undefined"
    ensures s != u && EscapeHtml(s) == EscapeHtml(u)
  {
    EscapeHtmlDoubled(s);
    EscapeHtmlPlain(u);
  }

  // ---------------------------------------------------------------------------
  // The photo grid

  /** A grid tile: a loaded image for a query, or the placeholder shown when it failed to load. */
  datatype Tile = Image(query: string) | Placeholder(message: string)

  /** state.maxPhotos */
  const MaxPhotos: nat := 9

  /** The placeholder text of an image that failed to load (app.js:284). */
  function NotFound(query: string): string {
    "Geen afbeelding gevonden voor \"" + query + "\""
  }

  /** The first n tiles of a grid; all of them when there are no more than n. */
  function Newest(tiles: seq<Tile>, n: nat): (r: seq<Tile>)
    ensures |r| == if |tiles| <= n then |tiles| else n
    ensures r == tiles[..|r|]
  {
    if |tiles| <= n then tiles else tiles[..n]
  }

  /** Trimming twice with the same bound, with tiles added in front in between, is trimming once. */
  lemma NewestFront(front: seq<Tile>, tiles: seq<Tile>, n: nat)
    ensures Newest(front + Newest(tiles, n), n) == Newest(front + tiles, n)
  {
    if |tiles| > n {
      var a := front + tiles[..n];
      var b := front + tiles;
      assert forall k :: 0 <= k < n ==> a[k] == b[k];
    }
  }

  function Reverse(s: seq<Tile>): (r: seq<Tile>)
    ensures |r| == |s|
    decreases |s|
  {
    if s == [] then [] else Reverse(s[1..]) + [s[0]]
  }

  /** The grid after each of `added` is prepended in turn and the grid trimmed. */
  function AfterAdds(tiles: seq<Tile>, added: seq<Tile>): seq<Tile>
    decreases |added|
  {
    if added == [] then tiles else AfterAdds(Newest([added[0]] + tiles, MaxPhotos), added[1..])
  }

  /** The grid shows the most recently added tiles, newest first, and at most MaxPhotos of them. */
  lemma {:induction false} AfterAddsNewestFirst(tiles: seq<Tile>, added: seq<Tile>)
    requires |tiles| <= MaxPhotos
    ensures AfterAdds(tiles, added) == Newest(Reverse(added) + tiles, MaxPhotos)
    decreases |added|
  {
    if added == [] {
      assert Reverse(added) + tiles == tiles;
    } else {
      var rest := added[1..];
      AfterAddsNewestFirst(Newest([added[0]] + tiles, MaxPhotos), rest);
      NewestFront(Reverse(rest), [added[0]] + tiles, MaxPhotos);
      assert Reverse(added) == Reverse(rest) + [added[0]];
      assert Reverse(rest) + ([added[0]] + tiles) == Reverse(added) + tiles;
    }
  }

  /** dom.photoGrid's children, newest first. */
  class PhotoGrid {
    var children: seq<Tile>

    ghost predicate Valid()
      reads this
    {
      |children| <= MaxPhotos
    }

    constructor ()
      ensures Valid() && children == []
    {
      children := [];
    }

    /**
     * trimPhotoGrid (app.js:295-300): a snapshot of the children is taken, and each snapshot
     * entry from index maxPhotos on is removed from the grid.
     */
    method Trim()
      modifies this
      ensures Valid()
      ensures children == Newest(old(children), MaxPhotos)
    {
      var snapshot := children;
      var i := MaxPhotos;
      while i < |snapshot|
        invariant MaxPhotos <= i
        invariant if |snapshot| <= MaxPhotos then children == snapshot
          else i <= |snapshot| && children == snapshot[..MaxPhotos] + snapshot[i..]
      {
        // The node removed is snapshot[i], which now sits at index MaxPhotos.
        assert children[MaxPhotos] == snapshot[i];
        children := children[..MaxPhotos] + children[MaxPhotos + 1..];
        assert children == snapshot[..MaxPhotos] + snapshot[i + 1..];
        i := i + 1;
      }
      if |snapshot| > MaxPhotos {
        assert snapshot[i..] == [];
        assert children == snapshot[..MaxPhotos];
      }
    }

    /** A tile is prepended to the grid, which is then trimmed. */
    method Add(tile: Tile)
      modifies this
      ensures Valid()
      ensures children == Newest([tile] + old(children), MaxPhotos)
    {
      children := [tile] + children;
      Trim();
    }

    /** The image's onload (app.js:289-292). */
    method OnLoad(query: string)
      modifies this
      ensures Valid()
      ensures children == Newest([Image(query)] + old(children), MaxPhotos)
    {
      Add(Image(query));
    }

    /** The image's onerror (app.js:281-287): a placeholder takes the image's place. */
    method OnError(query: string)
      modifies this
      ensures Valid()
      ensures children == Newest([Placeholder(NotFound(query))] + old(children), MaxPhotos)
    {
      Add(Placeholder(NotFound(query)));
    }
  }

  /** Adding to a full grid drops its oldest tile and nothing else. */
  lemma AddToFull(tiles: seq<Tile>, t: Tile)
    requires |tiles| == MaxPhotos
    ensures AfterAdds(tiles, [t]) == [t] + tiles[..MaxPhotos - 1]
  {
    assert ([t] + tiles)[..MaxPhotos] == [t] + tiles[..MaxPhotos - 1];
  }
}
