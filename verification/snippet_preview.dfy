/** The data the Elementor snippet editor hands to its preview
    (`mapEditorDataToPreview`), and the rewrite of empty replacement variables
    done before the editor is rendered. Strings are sequences of characters. */
module SnippetPreview {

  /** The snippet editor form data. */
  datatype EditorData = EditorData(title: string, url: string, description: string)

  /** The snippet editor templates from the editor store. */
  datatype Templates = Templates(title: string, description: string)

  /** `context.shortenedBaseUrl`: missing, some non-string value, or a string. */
  datatype ContextValue = Undefined | NonString | StringValue(s: string)

  // ---------------------------------------------------------------------
  // The base-URL offset.
  // ---------------------------------------------------------------------

  /** The number of characters of the URL taken by the shortened base URL:
      its length when it is a truthy string (a non-empty one), 0 otherwise. */
  function BaseUrlOffset(base: ContextValue): (n: nat)
    ensures n > 0 <==> base.StringValue? && base.s != ""
    ensures base.StringValue? ==> n == |base.s|
  {
    if base.StringValue? && base.s != "" then |base.s| else 0
  }

  // ---------------------------------------------------------------------
  // `url.replace( /\s+/g, "-" )`
  // ---------------------------------------------------------------------

  /** Membership in the JavaScript regular-expression class `\s`: the
      ECMAScript white space and line terminator code points. */
  predicate IsWhitespace(c: char)
  {
    var n := c as int;
    n == 0x09 || n == 0x0A || n == 0x0B || n == 0x0C || n == 0x0D || n == 0x20 ||
    n == 0xA0 || n == 0x1680 || (0x2000 <= n <= 0x200A) || n == 0x2028 || n == 0x2029 ||
    n == 0x202F || n == 0x205F || n == 0x3000 || n == 0xFEFF
  }

  predicate NoWhitespace(s: string)
  {
    forall i :: 0 <= i < |s| ==> !IsWhitespace(s[i])
  }

  /** `s` without its leading whitespace run: the greedy `\s+` match ends
      where the returned suffix starts. */
  function SkipRun(s: string): (r: string)
    ensures |r| <= |s|
    ensures r == [] || !IsWhitespace(r[0])
  {
    if s != [] && IsWhitespace(s[0]) then SkipRun(s[1..]) else s
  }

  /** What `SkipRun` drops is whitespace, and what it keeps is the rest of
      `s`. */
  lemma {:induction false} SkipRunDropsRun(s: string)
    ensures SkipRun(s) == s[|s| - |SkipRun(s)|..]
    ensures forall i :: 0 <= i < |s| - |SkipRun(s)| ==> IsWhitespace(s[i])
  {
    if s != [] && IsWhitespace(s[0]) {
      SkipRunDropsRun(s[1..]);
    }
  }

  /** The global replace, scanning left to right: each maximal whitespace run
      becomes one `-`; every other character is copied. The result is never
      longer than the input. */
  function ReplaceWhitespace(s: string): (r: string)
    ensures |r| <= |s|
    decreases |s|
  {
    if s == [] then []
    else if IsWhitespace(s[0]) then "-" + ReplaceWhitespace(SkipRun(s[1..]))
    else [s[0]] + ReplaceWhitespace(s[1..])
  }

  /** No whitespace survives the replacement. */
  lemma {:induction false} ReplaceLeavesNoWhitespace(s: string)
    ensures NoWhitespace(ReplaceWhitespace(s))
    decreases |s|
  {
    if s != [] {
      if IsWhitespace(s[0]) {
        ReplaceLeavesNoWhitespace(SkipRun(s[1..]));
        NoWhitespaceConcat("-", ReplaceWhitespace(SkipRun(s[1..])));
      } else {
        ReplaceLeavesNoWhitespace(s[1..]);
        NoWhitespaceConcat([s[0]], ReplaceWhitespace(s[1..]));
      }
    }
  }

  lemma NoWhitespaceConcat(a: string, b: string)
    requires NoWhitespace(a) && NoWhitespace(b)
    ensures NoWhitespace(a + b)
  {
    forall i | 0 <= i < |a + b| ensures !IsWhitespace((a + b)[i]) {
      if i >= |a| {
        assert (a + b)[i] == b[i - |a|];
      }
    }
  }

  /** Reference definition, one character at a time: a character outside
      `\s` is kept, the first whitespace character of a run turns into `-`,
      and the rest of the run disappears. */
  function Piece(s: string, i: nat): string
    requires i < |s|
  {
    if !IsWhitespace(s[i]) then [s[i]]
    else if i > 0 && IsWhitespace(s[i - 1]) then []
    else "-"
  }

  /** The pieces of `s` from index `i` on, concatenated. */
  function Pieces(s: string, i: nat): string
    requires i <= |s|
    decreases |s| - i
  {
    if i == |s| then [] else Piece(s, i) + Pieces(s, i + 1)
  }

  /** The replacement agrees with the per-character reference definition. */
  lemma ReplaceMatchesPieces(s: string)
    ensures ReplaceWhitespace(s) == Pieces(s, 0)
  {
    PiecesFromRunStart(s, 0);
  }

  /** From an index that does not continue a whitespace run, the pieces are
      the replacement of the rest. */
  lemma {:induction false} PiecesFromRunStart(s: string, i: nat)
    requires i <= |s|
    requires i == 0 || !IsWhitespace(s[i - 1])
    ensures Pieces(s, i) == ReplaceWhitespace(s[i..])
    decreases |s| - i, 1
  {
    if i < |s| {
      if IsWhitespace(s[i]) {
        PiecesInRun(s, i + 1);
        RunStartStep(s, i);
      } else {
        PiecesFromRunStart(s, i + 1);
        KeptStep(s, i);
      }
    }
  }

  /** A character outside `\s` is copied. */
  lemma KeptStep(s: string, i: nat)
    requires i < |s| && !IsWhitespace(s[i])
    requires Pieces(s, i + 1) == ReplaceWhitespace(s[i + 1..])
    ensures Pieces(s, i) == ReplaceWhitespace(s[i..])
  {
    ReplaceAt(s, i);
    assert Piece(s, i) == [s[i]];
  }

  /** A whitespace character starting a run turns into the one `-`. */
  lemma RunStartStep(s: string, i: nat)
    requires i < |s| && IsWhitespace(s[i])
    requires i == 0 || !IsWhitespace(s[i - 1])
    requires Pieces(s, i + 1) == ReplaceWhitespace(SkipRun(s[i + 1..]))
    ensures Pieces(s, i) == ReplaceWhitespace(s[i..])
  {
    ReplaceAt(s, i);
    assert Piece(s, i) == "-";
  }

  /** Inside a whitespace run, the pieces are the replacement of what follows
      the run. */
  lemma {:induction false} PiecesInRun(s: string, i: nat)
    requires 0 < i <= |s|
    requires IsWhitespace(s[i - 1])
    ensures Pieces(s, i) == ReplaceWhitespace(SkipRun(s[i..]))
    decreases |s| - i, 0
  {
    if i < |s| {
      ReplaceAt(s, i);
      assert s[i..][1..] == s[i + 1..];
      if IsWhitespace(s[i]) {
        PiecesInRun(s, i + 1);
      } else {
        PiecesFromRunStart(s, i + 1);
      }
    }
  }

  /** One step of the replacement on the suffix from `i`. */
  lemma ReplaceAt(s: string, i: nat)
    requires i < |s|
    ensures ReplaceWhitespace(s[i..]) ==
              if IsWhitespace(s[i]) then "-" + ReplaceWhitespace(SkipRun(s[i + 1..]))
              else [s[i]] + ReplaceWhitespace(s[i + 1..])
  {
    assert s[i..][0] == s[i];
    assert s[i..][1..] == s[i + 1..];
  }

  /** The characters of `s` that are neither whitespace nor `-`, in order. */
  function Text(s: string): string
  {
    if s == [] then []
    else if IsWhitespace(s[0]) || s[0] == '-' then Text(s[1..])
    else [s[0]] + Text(s[1..])
  }

  /** Whitespace contributes nothing to the text. */
  lemma {:induction false} TextSkipRun(s: string)
    ensures Text(SkipRun(s)) == Text(s)
  {
    if s != [] && IsWhitespace(s[0]) {
      TextSkipRun(s[1..]);
    }
  }

  /** The replacement keeps every other character, in order: only whitespace
      is turned into dashes. */
  lemma {:induction false} ReplaceKeepsText(s: string)
    ensures Text(ReplaceWhitespace(s)) == Text(s)
    decreases |s|
  {
    if s != [] {
      if IsWhitespace(s[0]) {
        var rest := SkipRun(s[1..]);
        ReplaceKeepsText(rest);
        TextSkipRun(s[1..]);
        assert ("-" + ReplaceWhitespace(rest))[1..] == ReplaceWhitespace(rest);
      } else {
        ReplaceKeepsText(s[1..]);
        assert ([s[0]] + ReplaceWhitespace(s[1..]))[1..] == ReplaceWhitespace(s[1..]);
      }
    }
  }

  // ---------------------------------------------------------------------
  // Dropping dashes.
  // ---------------------------------------------------------------------

  /** Drops the last character of `u` when it is `-`: the result is `u`
      itself, or `u` with exactly one `-` taken off its end. */
  function TrimTrailingDash(u: string): (r: string)
    ensures u == r || u == r + "-"
    ensures u == r <==> (u == [] || u[|u| - 1] != '-')
  {
    if u != [] && u[|u| - 1] == '-' then u[..|u| - 1] else u
  }

  /** Only one dash is trimmed: a URL ending in `--` still ends in `-`. */
  lemma TrimOnlyOne(u: string)
    requires |u| >= 2 && u[|u| - 1] == '-' && u[|u| - 2] == '-'
    ensures TrimTrailingDash(u) != [] && TrimTrailingDash(u)[|TrimTrailingDash(u)| - 1] == '-'
  {
  }

  /** Removes the character at index `k` when it is `-`. Everything before
      `k` stays in place, and an index past the end changes nothing. */
  function DropDashAt(u: string, k: nat): (r: string)
    ensures (k < |u| && u[k] == '-') <==> |r| == |u| - 1
    ensures !(k < |u| && u[k] == '-') ==> r == u
    ensures k < |u| && u[k] == '-' ==> r[..k] + "-" + r[k..] == u
    ensures k < |u| ==> r[..k] == u[..k]
  {
    if k < |u| && u[k] == '-' then u[..k] + u[k + 1..] else u
  }

  /** Removing a dash leaves the text alone. */
  lemma {:induction false} TextWithoutDash(a: string, b: string)
    ensures Text(a + "-" + b) == Text(a + b)
  {
    if a == [] {
      assert a + "-" + b == "-" + b;
      assert ("-" + b)[1..] == b;
      assert a + b == b;
    } else {
      assert (a + "-" + b)[1..] == a[1..] + "-" + b;
      assert (a + b)[1..] == a[1..] + b;
      TextWithoutDash(a[1..], b);
    }
  }

  /** Dropping a dash at either place leaves the text alone. */
  lemma DashDropsKeepText(u: string, k: nat)
    ensures Text(TrimTrailingDash(u)) == Text(u)
    ensures Text(DropDashAt(u, k)) == Text(u)
  {
    var t := TrimTrailingDash(u);
    if u == t + "-" {
      TextWithoutDash(t, []);
      assert t + [] == t && t + "-" + [] == u;
    }
    var r := DropDashAt(u, k);
    if k < |u| && u[k] == '-' {
      TextWithoutDash(r[..k], r[k..]);
      assert r[..k] + r[k..] == r;
    }
  }

  /** `r` is `u` with some of its `-` characters deleted and nothing else
      changed: every other character is kept, in order. */
  predicate DashesRemoved(u: string, r: string)
    decreases |u|
  {
    if u == [] then r == []
    else (r != [] && r[0] == u[0] && DashesRemoved(u[1..], r[1..])) ||
         (u[0] == '-' && DashesRemoved(u[1..], r))
  }

  lemma {:induction false} DashesRemovedNone(u: string)
    ensures DashesRemoved(u, u)
    decreases |u|
  {
    if u != [] {
      DashesRemovedNone(u[1..]);
    }
  }

  /** Deleting a single dash. */
  lemma {:induction false} DashesRemovedOne(a: string, b: string)
    ensures DashesRemoved(a + "-" + b, a + b)
    decreases |a|
  {
    var u := a + "-" + b;
    if a == [] {
      assert u == "-" + b && u[1..] == b && a + b == b;
      DashesRemovedNone(b);
    } else {
      assert u[0] == (a + b)[0];
      assert u[1..] == a[1..] + "-" + b;
      assert (a + b)[1..] == a[1..] + b;
      DashesRemovedOne(a[1..], b);
    }
  }

  /** Deleting dashes in two rounds deletes dashes. */
  lemma {:induction false} DashesRemovedTrans(u: string, m: string, r: string)
    requires DashesRemoved(u, m) && DashesRemoved(m, r)
    ensures DashesRemoved(u, r)
    decreases |u|
  {
    if u != [] {
      if m != [] && m[0] == u[0] && DashesRemoved(u[1..], m[1..]) {
        if r != [] && r[0] == m[0] && DashesRemoved(m[1..], r[1..]) {
          DashesRemovedTrans(u[1..], m[1..], r[1..]);
        } else {
          DashesRemovedTrans(u[1..], m[1..], r);
        }
      } else {
        DashesRemovedTrans(u[1..], m, r);
      }
    }
  }

  /** Both dash drops delete dashes and nothing else. */
  lemma DashDropsRemoveDashes(u: string, k: nat)
    ensures DashesRemoved(u, TrimTrailingDash(u))
    ensures DashesRemoved(u, DropDashAt(u, k))
  {
    var t := TrimTrailingDash(u);
    if u == t + "-" {
      DashesRemovedOne(t, []);
      assert t + "-" + [] == u && t + [] == t;
    } else {
      DashesRemovedNone(u);
    }
    if k < |u| && u[k] == '-' {
      DashesRemovedOne(u[..k], u[k + 1..]);
      assert u[..k] + "-" + u[k + 1..] == u;
    } else {
      DashesRemovedNone(u);
    }
  }

  /** Which dashes `mapEditorDataToPreview` deletes from the replaced URL
      `u`, stated on `u` itself: a dash ending `u` goes, and a dash at `k`
      goes when it is still inside the trimmed URL. A dash at `k` that is
      also the last character is deleted once. */
  predicate DashesDroppedAt(u: string, k: nat, r: string)
  {
    var ends := u != [] && u[|u| - 1] == '-';
    var n := if ends then |u| - 1 else |u|;
    var atK := k < n && u[k] == '-';
    (ends && atK ==> r == u[..k] + u[k + 1..|u| - 1]) &&
    (ends && !atK ==> r == u[..|u| - 1]) &&
    (!ends && atK ==> r == u[..k] + u[k + 1..]) &&
    (!ends && !atK ==> r == u)
  }

  /** The trailing trim followed by the drop at `k` deletes dashes only,
      keeps the characters before `k`, and changes nothing exactly when
      there is a dash at neither place. */
  lemma BothDrops(u: string, k: nat)
    ensures DashesDroppedAt(u, k, DropDashAt(TrimTrailingDash(u), k))
    ensures DashesRemoved(u, DropDashAt(TrimTrailingDash(u), k))
    ensures k < |u| ==>
              k <= |DropDashAt(TrimTrailingDash(u), k)| && DropDashAt(TrimTrailingDash(u), k)[..k] == u[..k]
    ensures DropDashAt(TrimTrailingDash(u), k) == u <==>
              !(u != [] && u[|u| - 1] == '-') && !(k < |u| && u[k] == '-')
  {
    var t := TrimTrailingDash(u);
    DashDropsRemoveDashes(u, k);
    DashDropsRemoveDashes(t, k);
    DashesRemovedTrans(u, t, DropDashAt(t, k));
    if k < |u| {
      assert t[..k] == u[..k];
    }
    if u != [] && u[|u| - 1] == '-' && k < |t| && t[k] == '-' {
      assert t[k + 1..] == u[k + 1..|u| - 1];
    }
  }

  // ---------------------------------------------------------------------
  // mapEditorDataToPreview
  // ---------------------------------------------------------------------

  /** The three URL steps: whitespace runs become dashes, a trailing dash is
      trimmed, and a dash at offset `k` is removed. The result holds no
      whitespace and is the replaced URL with at most two of its dashes
      deleted: the characters before `k` stay in place, and the URL is left
      as replaced exactly when it neither ends in `-` nor has `-` at `k`. */
  function NormalizeUrl(url: string, k: nat): (r: string)
    ensures NoWhitespace(r)
    ensures DashesDroppedAt(ReplaceWhitespace(url), k, r)
    ensures DashesRemoved(ReplaceWhitespace(url), r)
    ensures |ReplaceWhitespace(url)| - 2 <= |r| <= |ReplaceWhitespace(url)|
    ensures Text(r) == Text(url)
    ensures k < |ReplaceWhitespace(url)| ==> k <= |r| && r[..k] == ReplaceWhitespace(url)[..k]
    ensures var u := ReplaceWhitespace(url);
              r == u <==> !(u != [] && u[|u| - 1] == '-') && !(k < |u| && u[k] == '-')
  {
    var replaced := ReplaceWhitespace(url);
    var trimmed := TrimTrailingDash(replaced);
    ReplaceKeepsText(url);
    ReplaceLeavesNoWhitespace(url);
    DashDropsKeepText(replaced, 0);
    DashDropsKeepText(trimmed, k);
    BothDrops(replaced, k);
    NoWhitespacePrefix(replaced, |trimmed|);
    NoWhitespaceDrop(trimmed, k);
    DropDashAt(trimmed, k)
  }

  lemma NoWhitespacePrefix(s: string, n: nat)
    requires NoWhitespace(s) && n <= |s|
    ensures NoWhitespace(s[..n])
  {
  }

  lemma NoWhitespaceDrop(s: string, k: nat)
    requires NoWhitespace(s)
    ensures NoWhitespace(DropDashAt(s, k))
  {
    if k < |s| && s[k] == '-' {
      var r := DropDashAt(s, k);
      forall i | 0 <= i < |r| ensures !IsWhitespace(r[i]) {
        if i < k { assert r[i] == s[i]; } else { assert r[i] == s[i + 1]; }
      }
    }
  }

  /** `mapEditorDataToPreview( data, context )` up to, but not including, the
      final replacement-variable pass. Empty fields fall back to the
      templates; the URL loses its whitespace, then at most two dashes (one at
      the end, one right after the base URL), and nothing else. */
  function MapEditorDataToPreview(data: EditorData, templates: Templates, base: ContextValue): (r: EditorData)
    ensures data.title == "" ==> r.title == templates.title
    ensures data.title != "" ==> r.title == data.title
    ensures data.description == "" ==> r.description == templates.description
    ensures data.description != "" ==> r.description == data.description
    ensures NoWhitespace(r.url)
    ensures DashesDroppedAt(ReplaceWhitespace(data.url), BaseUrlOffset(base), r.url)
    ensures DashesRemoved(ReplaceWhitespace(data.url), r.url)
    ensures |ReplaceWhitespace(data.url)| - 2 <= |r.url| <= |ReplaceWhitespace(data.url)|
    ensures Text(r.url) == Text(data.url)
    ensures var u, k := ReplaceWhitespace(data.url), BaseUrlOffset(base);
              k < |u| ==> k <= |r.url| && r.url[..k] == u[..k]
    ensures var u, k := ReplaceWhitespace(data.url), BaseUrlOffset(base);
              r.url == u <==> !(u != [] && u[|u| - 1] == '-') && !(k < |u| && u[k] == '-')
  {
    var title := if data.title == "" then templates.title else data.title;
    var description := if data.description == "" then templates.description else data.description;
    EditorData(title, NormalizeUrl(data.url, BaseUrlOffset(base)), description)
  }

  /** The characters before the base-URL offset are never changed, unless the
      URL is no longer than the offset and its last dash is trimmed. */
  lemma MapKeepsBaseUrl(data: EditorData, templates: Templates, base: ContextValue)
    requires BaseUrlOffset(base) < |ReplaceWhitespace(data.url)|
    ensures MapEditorDataToPreview(data, templates, base).url[..BaseUrlOffset(base)] ==
              ReplaceWhitespace(data.url)[..BaseUrlOffset(base)]
  {
    var k := BaseUrlOffset(base);
    assert MapEditorDataToPreview(data, templates, base).url == NormalizeUrl(data.url, k);
    var replaced := ReplaceWhitespace(data.url);
    var trimmed := TrimTrailingDash(replaced);
    assert trimmed[..k] == replaced[..k];
    if k < |trimmed| {
      assert DropDashAt(trimmed, k)[..k] == trimmed[..k];
    }
  }

  /** The case the dash removal after the base URL is there for: a space
      typed right after the base URL and one at the end vanish, and the one
      between the words becomes a dash. */
  lemma SpaceAfterBaseUrl()
    ensures NormalizeUrl("a/ b c ", 2) == "a/b-c"
  {
    ReplaceExample();
    var t := "a/-b-c-"[..6];
    assert TrimTrailingDash("a/-b-c-") == t;
    assert t[..2] + t[3..] == "a/b-c";
  }

  /** A URL without whitespace comes through the replacement unchanged. */
  lemma {:induction false} ReplaceKeepsPlainUrl(s: string)
    requires NoWhitespace(s)
    ensures ReplaceWhitespace(s) == s
    decreases |s|
  {
    if s != [] {
      assert !IsWhitespace(s[0]);
      assert NoWhitespace(s[1..]) by {
        forall i | 0 <= i < |s[1..]| ensures !IsWhitespace(s[1..][i]) {
          assert s[1..][i] == s[i + 1];
        }
      }
      ReplaceKeepsPlainUrl(s[1..]);
      assert [s[0]] + s[1..] == s;
    }
  }

  /** The dash right after the base URL goes even when a later dash stays:
      with the offset 2, `ab-c-d` becomes `abc-d`. */
  lemma DashAtOffsetGoes()
    ensures NormalizeUrl("ab-c-d", 2) == "abc-d"
  {
    var u := "ab-c-d";
    assert NoWhitespace(u) by {
      forall i | 0 <= i < |u| ensures !IsWhitespace(u[i]) {
        assert u[i] in "abcd-";
      }
    }
    ReplaceKeepsPlainUrl(u);
    assert u[..2] + u[3..] == "abc-d";
  }

  /** Three whitespace runs, three dashes. */
  lemma ReplaceExample()
    ensures ReplaceWhitespace("a/ b c ") == "a/-b-c-"
  {
    var u := "a/ b c ";
    assert u[1..] == "/ b c " && u[2..] == " b c " && u[3..] == "b c ";
    assert u[4..] == " c " && u[5..] == "c " && u[6..] == " " && u[7..] == [];
  }

  // ---------------------------------------------------------------------
  // Empty replacement variables.
  // ---------------------------------------------------------------------

  datatype ReplaceVar = ReplaceVar(name: string, value: string)

  /** The variables whose empty value is left empty. */
  predicate Exempt(name: string)
  {
    name in ["title", "excerpt", "excerpt_only"]
  }

  /** One variable after the rewrite. */
  function FillOne(v: ReplaceVar): (r: ReplaceVar)
    ensures r.name == v.name
    ensures v.value != "" || Exempt(v.name) ==> r == v
    ensures v.value == "" && !Exempt(v.name) ==> r.value == "%%" + v.name + "%%"
  {
    if v.value == "" && !Exempt(v.name) then ReplaceVar(v.name, "%%" + v.name + "%%") else v
  }

  /** The `forEach` over the replacement variables: an empty value becomes
      `%%name%%` unless the variable is exempt; the list keeps its length,
      order and names. */
  function FillEmpty(vars: seq<ReplaceVar>): (r: seq<ReplaceVar>)
    ensures |r| == |vars|
    ensures forall i :: 0 <= i < |vars| ==> r[i] == FillOne(vars[i])
  {
    if vars == [] then [] else [FillOne(vars[0])] + FillEmpty(vars[1..])
  }

  /** After the rewrite, only exempt variables can still be empty. */
  lemma FilledOnlyExemptEmpty(vars: seq<ReplaceVar>)
    ensures forall i :: 0 <= i < |vars| && FillEmpty(vars)[i].value == "" ==> Exempt(FillEmpty(vars)[i].name)
  {
  }

  /** Running the rewrite a second time changes nothing. */
  lemma FillIdempotent(vars: seq<ReplaceVar>)
    ensures FillEmpty(FillEmpty(vars)) == FillEmpty(vars)
  {
    var once := FillEmpty(vars);
    forall i | 0 <= i < |once| ensures FillOne(once[i]) == once[i] {
      assert |"%%" + vars[i].name + "%%"| >= 4;
    }
  }
}
