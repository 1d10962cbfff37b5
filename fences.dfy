/**
  The clean-up of the model's reply in `generate_travel_plan`: a reply that
  opens with a Markdown code fence is cut down to the text inside the fence
  before it is parsed as JSON. A reply without an opening fence is passed on
  as it is, not even stripped.
 */
module Fences {
  import opened Wrappers
  import opened Text

  /** The opening fence of a JSON code block. */
  const JsonFence: string := "```json"

  /** A bare code fence. */
  const Fence: string := "```"

  /** `s.startswith(p)`. */
  predicate StartsWith(s: string, p: string) {
    |p| <= |s| && s[..|p|] == p
  }

  /** A string that opens with the separator splits into an empty first piece and the split of the rest. */
  lemma SplitLeading(s: string, sep: string)
    requires sep != [] && StartsWith(s, sep)
    ensures Split(s, sep) == [[]] + Split(s[|sep|..], sep)
  {
    assert Find(s, sep) == Some(0);
  }

  /** `s.split(sep)[1]` on a string that opens with `sep`: the text after it up to the next `sep` or the end. */
  function AfterOpening(s: string, sep: string): (r: string)
    requires sep != [] && StartsWith(s, sep)
    ensures r == Split(s[|sep|..], sep)[0]
  {
    SplitLeading(s, sep);
    Split(s, sep)[1]
  }

  /** The reply with its code fences removed (app.py:194-197). */
  function StripFences(content: string): (r: string)
    ensures StartsWith(content, Fence) ==> r == [] || (!IsSpace(r[0]) && !IsSpace(r[|r| - 1]))
  {
    if StartsWith(content, JsonFence) then Strip(Split(AfterOpening(content, JsonFence), Fence)[0])
    else if StartsWith(content, Fence) then Strip(Split(AfterOpening(content, Fence), Fence)[0])
    else content
  }

  /** A reply that does not open with a fence is returned exactly as it came. */
  lemma StripFencesUnfenced(content: string)
    requires !StartsWith(content, Fence)
    ensures StripFences(content) == content
  {
    if StartsWith(content, JsonFence) {
      assert false;
    }
  }

  /** A text lacking the separator's first character holds no occurrence of it. */
  lemma NoOccurrence(a: string, sep: string)
    requires sep != [] && sep[0] !in a
    ensures forall j :: !OccursAt(a, sep, j)
  {
    forall j ensures !OccursAt(a, sep, j) {
      OccursAtFirstChar(a, sep, j);
    }
  }

  /** The text before the first occurrence of a separator whose first character it lacks is the whole text. */
  lemma FirstPieceBefore(a: string, sep: string, b: string)
    requires sep != [] && sep[0] !in a
    ensures Split(a + sep + b, sep)[0] == a
  {
    var s := a + sep + b;
    assert OccursAt(s, sep, |a|) by {
      assert s[|a|..|a| + |sep|] == sep;
    }
    forall j | 0 <= j < |a| ensures !OccursAt(s, sep, j) {
      OccursAtFirstChar(s, sep, j);
      assert s[j] == a[j];
    }
    assert Find(s, sep) == Some(|a|);
    assert s[..|a|] == a;
  }

  /** A text lacking the separator's first character is a single piece. */
  lemma FirstPieceWhole(a: string, sep: string)
    requires sep != [] && sep[0] !in a
    ensures Split(a, sep)[0] == a
  {
    NoOccurrence(a, sep);
  }

  /**
    After a body without backticks, a closing fence and a tail that does not
    start with a backtick, a `json` fence can only start right at the
    closing fence or after it.
   */
  lemma JsonFenceAfterBody(body: string, tail: string, j: int)
    requires '`' !in body && (tail == [] || tail[0] != '`')
    requires 0 <= j < |body| + 3 && j != |body|
    ensures !OccursAt(body + Fence + tail, JsonFence, j)
  {
    var s := body + Fence + tail;
    OccursAtFirstChar(s, JsonFence, j);
    if j < |body| {
      assert s[j] == body[j];
    } else if j + 7 <= |s| {
      var k := |body| + 3 - j;
      assert s[j..j + 7][k] == s[|body| + 3] == tail[0];
      assert JsonFence[k] == '`';
    }
  }

  /** The body of a block closed by a fence is the first fenced piece of what the `json` split leaves. */
  lemma ClosedBodyHasNoJsonFence(body: string, tail: string)
    requires '`' !in body && (tail == [] || tail[0] != '`')
    ensures Split(Split(body + Fence + tail, JsonFence)[0], Fence)[0] == body
  {
    var s := body + Fence + tail;
    var n := |body| + 3;
    forall j | 0 <= j < n && j != |body| ensures !OccursAt(s, JsonFence, j) {
      JsonFenceAfterBody(body, tail, j);
    }
    var piece := Split(s, JsonFence)[0];
    match Find(s, JsonFence)
    case None =>
      assert piece == s;
      FirstPieceBefore(body, Fence, tail);
    case Some(i) =>
      assert piece == s[..i];
      if i == |body| {
        assert piece == body;
        FirstPieceWhole(body, Fence);
      } else {
        assert i >= n;
        assert piece == body + Fence + s[n..i];
        FirstPieceBefore(body, Fence, s[n..i]);
      }
  }

  /** A piece of a split by a fence holds no fence, and neither does the piece once stripped. */
  lemma StrippedPieceHasNoFence(s: string)
    ensures !Contains(Strip(Split(s, Fence)[0]), Fence)
  {
    SplitPiecesFree(s, Fence);
    StripContains(Split(s, Fence)[0], Fence);
  }

  /** Whatever the reply, once an opening fence is seen the result holds no fence at all. */
  lemma StripFencesLeavesNoFence(content: string)
    requires StartsWith(content, Fence)
    ensures !Contains(StripFences(content), Fence)
  {
    if StartsWith(content, JsonFence) {
      StrippedPieceHasNoFence(AfterOpening(content, JsonFence));
    } else {
      StrippedPieceHasNoFence(AfterOpening(content, Fence));
    }
  }

  /** A JSON block closed by a fence, whatever follows it, or left open, gives back its body, stripped. */
  lemma StripFencesJsonBlock(body: string, tail: string)
    requires '`' !in body && (tail == [] || tail[0] != '`')
    ensures StripFences(JsonFence + body + Fence + tail) == Strip(body)
    ensures StripFences(JsonFence + body) == Strip(body)
  {
    var closed := JsonFence + body + Fence + tail;
    assert StartsWith(closed, JsonFence) && closed[7..] == body + Fence + tail;
    ClosedBodyHasNoJsonFence(body, tail);
    var open := JsonFence + body;
    assert StartsWith(open, JsonFence) && open[7..] == body;
    FirstPieceWhole(body, JsonFence);
    FirstPieceWhole(body, Fence);
  }

  /** A bare fenced block gives back its body, stripped, whatever follows the closing fence. */
  lemma StripFencesBareBlock(body: string, tail: string)
    requires '`' !in body && !StartsWith(body, "json")
    ensures StripFences(Fence + body + Fence + tail) == Strip(body)
  {
    var s := Fence + body + Fence + tail;
    assert StartsWith(s, Fence) && s[3..] == body + Fence + tail;
    assert !StartsWith(s, JsonFence) by {
      if |body| >= 4 {
        assert s[3..7] == body[..4];
      } else {
        assert s[3 + |body|] == '`';
      }
    }
    FirstPieceBefore(body, Fence, tail);
    FirstPieceWhole(body, Fence);
  }
}
