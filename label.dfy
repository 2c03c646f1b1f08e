/**
 * The accessible name of the dialog: the text of the first heading of the
 * modal's content, trimmed and with every run of white space replaced by a
 * single space, or the constant "modal" when there is no heading
 * (`_setModalLabel`, src/index.ts).
 */
module Label {
  import opened Wrappers

  const MODAL_LABEL_FALLBACK: string := "modal"

  /** The characters that JavaScript's `\s` class and `String.prototype.trim`
      treat as white space: the WhiteSpace characters (tab, vertical tab, form
      feed, space, no-break space, the byte order mark and the other space
      separators) and the LineTerminator characters. */
  predicate IsSpace(c: char) {
    c == '\t' || c == '\n' || c == '\U{B}' || c == '\U{C}' || c == '\r' ||
    c == ' ' || c == '\U{A0}' || c == '\U{1680}' ||
    ('\U{2000}' <= c <= '\U{200A}') ||
    c == '\U{2028}' || c == '\U{2029}' || c == '\U{202F}' || c == '\U{205F}' ||
    c == '\U{3000}' || c == '\U{FEFF}'
  }

  /** No white space at either end. */
  predicate NoEdgeSpaces(s: string) {
    s == [] || (!IsSpace(s[0]) && !IsSpace(s[|s| - 1]))
  }

  /** No two neighbouring white-space characters. */
  predicate NoAdjacentSpaces(s: string) {
    forall i :: 0 <= i < |s| - 1 ==> !IsSpace(s[i]) || !IsSpace(s[i + 1])
  }

  /** The only white space left is the plain space U+0020. */
  predicate OnlyPlainSpaces(s: string) {
    forall i :: 0 <= i < |s| ==> IsSpace(s[i]) ==> s[i] == ' '
  }

  /** The characters of `s` that are not white space, in order. */
  function WithoutSpaces(s: string): string {
    if s == [] then []
    else if IsSpace(s[0]) then WithoutSpaces(s[1..])
    else [s[0]] + WithoutSpaces(s[1..])
  }

  /** Drops the white space at the front: `r` is the suffix of `s` that
      starts at its first non-space character. */
  function TrimStart(s: string): (r: string)
    ensures |r| <= |s| && r == s[|s| - |r|..]
    ensures r == [] || !IsSpace(r[0])
    ensures forall i :: 0 <= i < |s| - |r| ==> IsSpace(s[i])
  {
    if s != [] && IsSpace(s[0]) then TrimStart(s[1..]) else s
  }

  /** Drops the white space at the back: `r` is the prefix of `s` that ends
      at its last non-space character. */
  function TrimEnd(s: string): (r: string)
    ensures |r| <= |s| && r == s[..|r|]
    ensures r == [] || !IsSpace(r[|r| - 1])
    ensures forall i :: |r| <= i < |s| ==> IsSpace(s[i])
  {
    if s != [] && IsSpace(s[|s| - 1]) then TrimEnd(s[..|s| - 1]) else s
  }

  /** `String.prototype.trim`. */
  function Trim(s: string): string {
    TrimEnd(TrimStart(s))
  }

  /** `s.replace(/\s+/g, ' ')`: every maximal run of white space becomes one
      space. */
  function CollapseSpaces(s: string): string
    decreases |s|
  {
    if s == [] then []
    else if IsSpace(s[0]) then [' '] + CollapseSpaces(TrimStart(s[1..]))
    else [s[0]] + CollapseSpaces(s[1..])
  }

  /** `label.trim().replace(SPACE_REGEX, SPACE)`. */
  function Normalize(s: string): string {
    CollapseSpaces(Trim(s))
  }

  /** The label `_setModalLabel` puts on the dialog, given the text content of
      the first heading (`None` when the content has no heading). The
      fallback replaces an EMPTY text before trimming, so a heading made of
      white space only gives the empty label. */
  function ModalLabel(heading: Option<string>): string {
    match heading
    case None => MODAL_LABEL_FALLBACK
    case Some(text) => Normalize(if text != "" then text else MODAL_LABEL_FALLBACK)
  }

  // ---------------------------------------------------------------------
  // Properties of the pieces.
  // ---------------------------------------------------------------------

  lemma {:induction false} WithoutSpacesAppend(a: string, b: string)
    ensures WithoutSpaces(a + b) == WithoutSpaces(a) + WithoutSpaces(b)
  {
    if a != [] {
      assert (a + b)[1..] == a[1..] + b;
      WithoutSpacesAppend(a[1..], b);
    } else {
      assert a + b == b;
    }
  }

  /** A string of white space only has no visible characters. */
  lemma {:induction false} WithoutSpacesOfSpaces(s: string)
    requires forall i :: 0 <= i < |s| ==> IsSpace(s[i])
    ensures WithoutSpaces(s) == []
  {
    if s != [] {
      WithoutSpacesOfSpaces(s[1..]);
    }
  }

  /** Dropping leading white space removes white space only. */
  lemma {:induction false} TrimStartKeepsText(s: string)
    ensures WithoutSpaces(TrimStart(s)) == WithoutSpaces(s)
  {
    var t := TrimStart(s);
    var front := s[..|s| - |t|];
    assert s == front + t;
    WithoutSpacesAppend(front, t);
    WithoutSpacesOfSpaces(front);
  }

  /** Dropping trailing white space removes white space only. */
  lemma {:induction false} TrimEndKeepsText(s: string)
    ensures WithoutSpaces(TrimEnd(s)) == WithoutSpaces(s)
  {
    var u := TrimEnd(s);
    var back := s[|u|..];
    assert s == u + back;
    WithoutSpacesAppend(u, back);
    WithoutSpacesOfSpaces(back);
  }

  /** Trimming removes white space only. */
  lemma {:induction false} TrimKeepsText(s: string)
    ensures WithoutSpaces(Trim(s)) == WithoutSpaces(s)
  {
    TrimStartKeepsText(s);
    TrimEndKeepsText(TrimStart(s));
  }

  /** The trimmed string has no white space at either end. */
  lemma {:induction false} TrimHasNoEdgeSpaces(s: string)
    ensures NoEdgeSpaces(Trim(s))
  {
    var t := TrimStart(s);
    var u := TrimEnd(t);
    if u != [] {
      assert u[0] == t[0];
    }
  }

  /** Trimming leaves a string without white space at its ends alone. */
  lemma {:induction false} TrimOfTrimmed(s: string)
    requires NoEdgeSpaces(s)
    ensures Trim(s) == s
  {
  }

  /** The collapsed string is empty exactly when the input is, and it starts
      with white space exactly when the input does. */
  lemma {:induction false} CollapseFirst(s: string)
    ensures CollapseSpaces(s) == [] <==> s == []
    ensures s != [] ==> (IsSpace(CollapseSpaces(s)[0]) <==> IsSpace(s[0]))
  {
  }

  /** The collapsed string ends with white space exactly when the input does. */
  lemma {:induction false} CollapseLast(s: string)
    requires s != []
    ensures CollapseSpaces(s) != []
    ensures IsSpace(CollapseSpaces(s)[|CollapseSpaces(s)| - 1]) <==> IsSpace(s[|s| - 1])
  {
    var r := CollapseSpaces(s);
    if IsSpace(s[0]) {
      var t := TrimStart(s[1..]);
      if t == [] {
        assert CollapseSpaces(t) == [];
        assert r == [' '] + CollapseSpaces(t);
        if |s| > 1 {
          assert IsSpace(s[1..][|s| - 2]);
        }
      } else {
        CollapseLast(t);
        assert r[|r| - 1] == CollapseSpaces(t)[|CollapseSpaces(t)| - 1];
        assert t[|t| - 1] == s[|s| - 1];
      }
    } else if |s| > 1 {
      CollapseLast(s[1..]);
      assert r[|r| - 1] == CollapseSpaces(s[1..])[|CollapseSpaces(s[1..])| - 1];
    }
  }

  /** After collapsing, no two white-space characters are neighbours. */
  lemma {:induction false} CollapseNoAdjacent(s: string)
    ensures NoAdjacentSpaces(CollapseSpaces(s))
    decreases |s|
  {
    if s != [] {
      var r := CollapseSpaces(s);
      if IsSpace(s[0]) {
        var t := TrimStart(s[1..]);
        CollapseNoAdjacent(t);
        CollapseFirst(t);
        assert r == [' '] + CollapseSpaces(t);
        forall i | 0 <= i < |r| - 1
          ensures !IsSpace(r[i]) || !IsSpace(r[i + 1])
        {
          if i > 0 {
            assert r[i] == CollapseSpaces(t)[i - 1] && r[i + 1] == CollapseSpaces(t)[i];
          }
        }
      } else {
        CollapseNoAdjacent(s[1..]);
        assert r == [s[0]] + CollapseSpaces(s[1..]);
        forall i | 0 <= i < |r| - 1
          ensures !IsSpace(r[i]) || !IsSpace(r[i + 1])
        {
          if i > 0 {
            assert r[i] == CollapseSpaces(s[1..])[i - 1] && r[i + 1] == CollapseSpaces(s[1..])[i];
          }
        }
      }
    }
  }

  /** After collapsing, every white-space character is a plain space. */
  lemma {:induction false} CollapsePlainSpaces(s: string)
    ensures OnlyPlainSpaces(CollapseSpaces(s))
    decreases |s|
  {
    if s != [] {
      var r := CollapseSpaces(s);
      var rest := if IsSpace(s[0]) then TrimStart(s[1..]) else s[1..];
      CollapsePlainSpaces(rest);
      assert r[1..] == CollapseSpaces(rest);
      forall i | 0 <= i < |r| && IsSpace(r[i])
        ensures r[i] == ' '
      {
        if i > 0 {
          assert r[i] == CollapseSpaces(rest)[i - 1];
        }
      }
    }
  }

  /** Collapsing changes white space only: the visible characters are those
      of the input, in the same order. */
  lemma {:induction false} CollapseKeepsText(s: string)
    ensures WithoutSpaces(CollapseSpaces(s)) == WithoutSpaces(s)
    decreases |s|
  {
    if s != [] {
      if IsSpace(s[0]) {
        var t := TrimStart(s[1..]);
        CollapseKeepsText(t);
        assert s[1..] == s[1..][..|s| - 1 - |t|] + t;
        WithoutSpacesAppend(s[1..][..|s| - 1 - |t|], t);
        WithoutSpacesOfSpaces(s[1..][..|s| - 1 - |t|]);
        assert ([' '] + CollapseSpaces(t))[1..] == CollapseSpaces(t);
      } else {
        CollapseKeepsText(s[1..]);
        assert ([s[0]] + CollapseSpaces(s[1..]))[1..] == CollapseSpaces(s[1..]);
      }
    }
  }

  /** A string that is already collapsed is its own collapse. */
  lemma {:induction false} CollapseOfCollapsed(s: string)
    requires NoAdjacentSpaces(s) && OnlyPlainSpaces(s)
    ensures CollapseSpaces(s) == s
    decreases |s|
  {
    if s != [] {
      assert NoAdjacentSpaces(s[1..]) && OnlyPlainSpaces(s[1..]) by {
        forall i | 0 <= i < |s[1..]| - 1
          ensures !IsSpace(s[1..][i]) || !IsSpace(s[1..][i + 1])
        {
          assert s[1..][i] == s[i + 1] && s[1..][i + 1] == s[i + 2];
        }
      }
      if IsSpace(s[0]) {
        assert s[1..] == [] || !IsSpace(s[1..][0]);
        assert TrimStart(s[1..]) == s[1..];
      }
      CollapseOfCollapsed(s[1..]);
      assert s == [s[0]] + s[1..];
    }
  }

  /** `TrimStart` stops at the first non-space character and nowhere
      else: when `s[..k]` is all white space and `s[k]` (if any) is not,
      the result is `s[k..]`. */
  lemma TrimStartAt(s: string, k: nat)
    requires k <= |s|
    requires forall i :: 0 <= i < k ==> IsSpace(s[i])
    requires k == |s| || !IsSpace(s[k])
    ensures TrimStart(s) == s[k..]
  {
  }

  /** Trimming the front of a string with visible text before a tail never
      reaches the tail. */
  lemma TrimStartAppend(x: string, c: string)
    requires TrimStart(x) != []
    ensures TrimStart(x + c) == TrimStart(x) + c
  {
    var s := x + c;
    var j := |x| - |TrimStart(x)|;
    forall i | 0 <= i < j
      ensures IsSpace(s[i])
    {
      assert s[i] == x[i];
    }
    assert s[j] == x[j] == TrimStart(x)[0];
    TrimStartAt(s, j);
    assert s[j..] == x[j..] + c;
  }

  /** A run of white space followed by a part starting with visible text is
      trimmed down to that part. */
  lemma TrimStartOfRun(w: string, b: string)
    requires forall i :: 0 <= i < |w| ==> IsSpace(w[i])
    requires b == [] || !IsSpace(b[0])
    ensures TrimStart(w + b) == b
  {
    TrimStartAt(w + b, |w|);
    assert (w + b)[|w|..] == b;
  }

  /** A leading run of white space collapses to one space before the
      collapsed rest. */
  lemma CollapseRun(w: string, b: string)
    requires w != [] && forall i :: 0 <= i < |w| ==> IsSpace(w[i])
    requires b == [] || !IsSpace(b[0])
    ensures CollapseSpaces(w + b) == " " + CollapseSpaces(b)
  {
    var s := w + b;
    assert s[0] == w[0];
    assert s[1..] == w[1..] + b;
    TrimStartOfRun(w[1..], b);
  }

  /** A string that starts with white space collapses to one space before
      the collapsed rest, whatever follows. */
  lemma CollapseSpaceHead(a: string, c: string)
    requires a != [] && IsSpace(a[0])
    ensures CollapseSpaces(a + c) == [' '] + CollapseSpaces(TrimStart(a[1..] + c))
  {
    var s := a + c;
    assert s[0] == a[0];
    assert s[1..] == a[1..] + c;
  }

  /** If collapsing the text after a leading run of white space, followed
      by `tail`, gives its own collapse followed by `y`, the same holds with
      the run in front. */
  lemma CollapseLeadingSpace(a: string, tail: string, y: string)
    requires a != [] && IsSpace(a[0]) && TrimStart(a[1..]) != []
    requires CollapseSpaces(TrimStart(a[1..]) + tail) == CollapseSpaces(TrimStart(a[1..])) + y
    ensures CollapseSpaces(a + tail) == CollapseSpaces(a) + y
  {
    CollapseSpaceHead(a, tail);
    TrimStartAppend(a[1..], tail);
  }

  /** A string that starts with a visible character keeps it in front of
      the collapsed rest, whatever follows. */
  lemma CollapseTextHead(a: string, tail: string)
    requires a != [] && !IsSpace(a[0])
    ensures CollapseSpaces(a + tail) == [a[0]] + CollapseSpaces(a[1..] + tail)
  {
    var s := a + tail;
    assert s[0] == a[0];
    assert s[1..] == a[1..] + tail;
  }

  /** The same for a leading visible character, which collapsing keeps. */
  lemma CollapseLeadingText(a: string, tail: string, y: string)
    requires a != [] && !IsSpace(a[0])
    requires CollapseSpaces(a[1..] + tail) == CollapseSpaces(a[1..]) + y
    ensures CollapseSpaces(a + tail) == CollapseSpaces(a) + y
  {
    CollapseTextHead(a, tail);
  }

  /** Where the spaces go: a maximal run of white space between two parts
      becomes exactly one plain space, and each part is collapsed on its
      own. */
  lemma {:induction false} CollapseSplit(a: string, w: string, b: string)
    requires a == [] || !IsSpace(a[|a| - 1])
    requires w != [] && forall i :: 0 <= i < |w| ==> IsSpace(w[i])
    requires b == [] || !IsSpace(b[0])
    ensures CollapseSpaces(a + (w + b)) == CollapseSpaces(a) + (" " + CollapseSpaces(b))
    decreases |a|
  {
    if a == [] {
      assert a + (w + b) == w + b;
      CollapseRun(w, b);
    } else if IsSpace(a[0]) {
      var rest := TrimStart(a[1..]);
      assert rest != [];
      assert rest[|rest| - 1] == a[|a| - 1];
      CollapseSplit(rest, w, b);
      CollapseLeadingSpace(a, w + b, " " + CollapseSpaces(b));
    } else {
      var rest := a[1..];
      if rest != [] {
        assert rest[|rest| - 1] == a[|a| - 1];
      }
      CollapseSplit(rest, w, b);
      CollapseLeadingText(a, w + b, " " + CollapseSpaces(b));
    }
  }

  // ---------------------------------------------------------------------
  // Properties of the label.
  // ---------------------------------------------------------------------

  /** The normalised text has no white space at its ends, no two white-space
      characters in a row, only plain spaces, and the visible characters of
      the input in order. */
  lemma {:induction false} NormalizeShape(s: string)
    ensures NoEdgeSpaces(Normalize(s))
    ensures NoAdjacentSpaces(Normalize(s))
    ensures OnlyPlainSpaces(Normalize(s))
    ensures WithoutSpaces(Normalize(s)) == WithoutSpaces(s)
  {
    var t := Trim(s);
    TrimHasNoEdgeSpaces(s);
    TrimKeepsText(s);
    CollapseNoAdjacent(t);
    CollapsePlainSpaces(t);
    CollapseKeepsText(t);
    CollapseKeepsEdges(t);
  }

  /** Collapsing a string without white space at its ends gives one without
      white space at its ends. */
  lemma {:induction false} CollapseKeepsEdges(t: string)
    requires NoEdgeSpaces(t)
    ensures NoEdgeSpaces(CollapseSpaces(t))
  {
    if t != [] {
      CollapseFirst(t);
      CollapseLast(t);
    }
  }

  /** Normalising twice is normalising once. */
  lemma {:induction false} NormalizeIdempotent(s: string)
    ensures Normalize(Normalize(s)) == Normalize(s)
  {
    var r := Normalize(s);
    NormalizeShape(s);
    TrimOfTrimmed(r);
    CollapseOfCollapsed(r);
  }

  /** Without a heading, or with a heading whose text is empty, the label is
      the fallback "modal". */
  lemma {:induction false} LabelFallback(heading: Option<string>)
    requires heading == None || heading == Some("")
    ensures ModalLabel(heading) == MODAL_LABEL_FALLBACK
  {
    if heading.Some? {
      assert NoEdgeSpaces(MODAL_LABEL_FALLBACK);
      TrimOfTrimmed(MODAL_LABEL_FALLBACK);
      assert NoAdjacentSpaces(MODAL_LABEL_FALLBACK) && OnlyPlainSpaces(MODAL_LABEL_FALLBACK) by {
        forall i | 0 <= i < |MODAL_LABEL_FALLBACK|
          ensures !IsSpace(MODAL_LABEL_FALLBACK[i])
        {
        }
      }
      CollapseOfCollapsed(MODAL_LABEL_FALLBACK);
    }
  }

  /** Every label has no white space at either end, no two white-space
      characters in a row and no white space other than plain spaces; with a
      non-empty heading text it keeps exactly that text's visible
      characters. */
  lemma {:induction false} LabelShape(heading: Option<string>)
    ensures NoEdgeSpaces(ModalLabel(heading))
    ensures NoAdjacentSpaces(ModalLabel(heading))
    ensures OnlyPlainSpaces(ModalLabel(heading))
    ensures heading.Some? && heading.value != "" ==>
      WithoutSpaces(ModalLabel(heading)) == WithoutSpaces(heading.value)
  {
    if heading.None? {
      LabelFallback(heading);
      assert NoEdgeSpaces(MODAL_LABEL_FALLBACK);
      assert OnlyPlainSpaces(MODAL_LABEL_FALLBACK) && NoAdjacentSpaces(MODAL_LABEL_FALLBACK) by {
        forall i | 0 <= i < |MODAL_LABEL_FALLBACK|
          ensures !IsSpace(MODAL_LABEL_FALLBACK[i])
        {
        }
      }
    } else {
      NormalizeShape(if heading.value != "" then heading.value else MODAL_LABEL_FALLBACK);
    }
  }

  /** A heading whose text is white space only (and not empty) yields the
      EMPTY label: the fallback is applied before trimming. */
  lemma {:induction false} LabelOfBlankHeading(text: string)
    requires text != [] && forall i :: 0 <= i < |text| ==> IsSpace(text[i])
    ensures ModalLabel(Some(text)) == ""
  {
    assert TrimStart(text) == [];
  }

  /** A heading text that is already clean (not empty, no white space at
      the ends, single plain spaces only) is the label as it stands. */
  lemma {:induction false} LabelOfCleanHeading(text: string)
    requires text != "" && NoEdgeSpaces(text) && NoAdjacentSpaces(text) && OnlyPlainSpaces(text)
    ensures ModalLabel(Some(text)) == text
  {
    TrimOfTrimmed(text);
    CollapseOfCollapsed(text);
  }

  /** Two parts of a heading text, each without white space at its ends,
      separated by any run of white space, give a label in which the run has
      become one plain space between the two collapsed parts. */
  lemma {:induction false} LabelSplitsWords(a: string, w: string, b: string)
    requires a != [] && b != [] && NoEdgeSpaces(a) && NoEdgeSpaces(b)
    requires w != [] && forall i :: 0 <= i < |w| ==> IsSpace(w[i])
    ensures ModalLabel(Some(a + w + b)) == CollapseSpaces(a) + " " + CollapseSpaces(b)
  {
    var s := a + (w + b);
    assert a + w + b == s;
    assert s[0] == a[0] && s[|s| - 1] == b[|b| - 1];
    TrimOfTrimmed(s);
    CollapseSplit(a, w, b);
  }

  /** The heading of the component's test gives its own text as the label. */
  lemma TestHeadingLabel()
    ensures ModalLabel(Some("Test Modal")) == "Test Modal"
  {
    var t := "Test Modal";
    assert OnlyPlainSpaces(t) && NoAdjacentSpaces(t) by {
      forall i | 0 <= i < |t| ensures IsSpace(t[i]) ==> i == 4 && t[i] == ' ' {
      }
    }
    LabelOfCleanHeading(t);
  }
}
