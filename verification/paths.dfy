/** Error-location strings built from the host's metadata stack. The stack
    is given in iteration order, innermost frame first; only property frames
    contribute. The property path reads `Class::$outer::$inner`, the field
    path `outer.inner` (serialized names preferred). Both end with PHP's
    `rtrim`, which strips every trailing character that occurs in the
    separator, not just one separator. */
module Paths {
  import opened Wrappers

  const PropertySeparator: string := "::"
  const FieldSeparator: string := "."

  /** A metadata stack entry: a property (declaring class, property name,
      optional serialized name) or any other kind of metadata. */
  datatype Frame =
    | PropertyFrame(declaringClass: string, name: string, serializedName: Option<string>)
    | OtherFrame

  /** `s` without its longest suffix made only of characters of `mask`;
      like PHP's `rtrim`, the mask is a list of characters, not a string
      to remove. */
  function RTrim(s: string, mask: string): (r: string)
    ensures r <= s
    ensures |r| == 0 || r[|r| - 1] !in mask
    ensures forall i :: |r| <= i < |s| ==> s[i] in mask
    decreases |s|
  {
    if |s| > 0 && s[|s| - 1] in mask then RTrim(s[..|s| - 1], mask) else s
  }

  /** Every segment followed by the separator, in order. */
  function Terminated(segments: seq<string>, sep: string): string {
    if |segments| == 0 then "" else segments[0] + sep + Terminated(segments[1..], sep)
  }

  /** The segments with the separator between neighbours. */
  function Join(segments: seq<string>, sep: string): string {
    if |segments| == 0 then ""
    else if |segments| == 1 then segments[0]
    else segments[0] + sep + Join(segments[1..], sep)
  }

  datatype Style = PropertyStyle | FieldStyle

  /** The text one property frame contributes to a path. */
  function Segment(style: Style, f: Frame): string
    requires f.PropertyFrame?
  {
    match style
    case PropertyStyle => "$" + f.name
    case FieldStyle => f.serializedName.GetOr(f.name)
  }

  /** The segments of the property frames, outermost first. */
  function Segments(frames: seq<Frame>, style: Style): seq<string> {
    if |frames| == 0 then []
    else
      Segments(frames[1..], style)
        + (if frames[0].PropertyFrame? then [Segment(style, frames[0])] else [])
  }

  /** The declaring class of the outermost property frame, if any. */
  function OutermostClass(frames: seq<Frame>): Option<string> {
    if |frames| == 0 then None
    else
      match OutermostClass(frames[1..])
      case Some(c) => Some(c)
      case None => if frames[0].PropertyFrame? then Some(frames[0].declaringClass) else None
  }

  /** Reference definition of the property path. */
  function PropertyPath(frames: seq<Frame>): string {
    var body := Terminated(Segments(frames, PropertyStyle), PropertySeparator);
    var rooted :=
      match OutermostClass(frames)
      case Some(c) => c + PropertySeparator + body
      case None => body;
    RTrim(rooted, PropertySeparator)
  }

  /** Reference definition of the field path. */
  function FieldPath(frames: seq<Frame>): string {
    RTrim(Terminated(Segments(frames, FieldStyle), FieldSeparator), FieldSeparator)
  }

  /** The property path as the handler computes it: one pass over the stack
      prepending `$name::` for each property frame and remembering the last
      property frame seen, then the class prefix and the trim. */
  method GetPropertyPath(frames: seq<Frame>) returns (path: string)
    ensures path == PropertyPath(frames)
  {
    path := "";
    var last: Option<Frame> := None;
    for i := 0 to |frames|
      invariant path == Terminated(Segments(frames[..i], PropertyStyle), PropertySeparator)
      invariant last.Some? ==> last.value.PropertyFrame?
      invariant OutermostClass(frames[..i]) == if last.Some? then Some(last.value.declaringClass) else None
    {
      var element := frames[i];
      assert frames[..i + 1] == frames[..i] + [element];
      SegmentsSnoc(frames[..i], element, PropertyStyle);
      OutermostClassSnoc(frames[..i], element);
      if element.PropertyFrame? {
        var rest := Segments(frames[..i], PropertyStyle);
        assert ([Segment(PropertyStyle, element)] + rest)[1..] == rest;
        path := "$" + element.name + PropertySeparator + path;
        last := Some(element);
      } else {
        assert [] + Segments(frames[..i], PropertyStyle) == Segments(frames[..i], PropertyStyle);
      }
    }
    assert frames[..|frames|] == frames;
    if last.Some? {
      path := last.value.declaringClass + PropertySeparator + path;
    }
    path := RTrim(path, PropertySeparator);
  }

  /** The field path as the handler computes it: one pass over the stack
      prepending `name.` (serialized name preferred), then the trim. */
  method GetFieldPath(frames: seq<Frame>) returns (path: string)
    ensures path == FieldPath(frames)
  {
    path := "";
    for i := 0 to |frames|
      invariant path == Terminated(Segments(frames[..i], FieldStyle), FieldSeparator)
    {
      var element := frames[i];
      assert frames[..i + 1] == frames[..i] + [element];
      SegmentsSnoc(frames[..i], element, FieldStyle);
      if element.PropertyFrame? {
        var name := element.serializedName.GetOr(element.name);
        var rest := Segments(frames[..i], FieldStyle);
        assert ([Segment(FieldStyle, element)] + rest)[1..] == rest;
        path := name + FieldSeparator + path;
      } else {
        assert [] + Segments(frames[..i], FieldStyle) == Segments(frames[..i], FieldStyle);
      }
    }
    assert frames[..|frames|] == frames;
    path := RTrim(path, FieldSeparator);
  }

  /** A frame visited after all others is the outermost: its segment goes
      first. */
  lemma {:induction false} SegmentsSnoc(frames: seq<Frame>, f: Frame, style: Style)
    ensures Segments(frames + [f], style)
      == (if f.PropertyFrame? then [Segment(style, f)] else []) + Segments(frames, style)
  {
    if |frames| > 0 {
      assert (frames + [f])[1..] == frames[1..] + [f];
      SegmentsSnoc(frames[1..], f, style);
    } else {
      assert (frames + [f])[1..] == [];
    }
  }

  /** A property frame visited after all others supplies the root class. */
  lemma {:induction false} OutermostClassSnoc(frames: seq<Frame>, f: Frame)
    ensures OutermostClass(frames + [f])
      == if f.PropertyFrame? then Some(f.declaringClass) else OutermostClass(frames)
  {
    if |frames| > 0 {
      assert (frames + [f])[1..] == frames[1..] + [f];
      OutermostClassSnoc(frames[1..], f);
    } else {
      assert (frames + [f])[1..] == [];
    }
  }

  /** True iff `s` is non-empty and does not end with `c`: a segment that the
      trim leaves intact. */
  predicate EndsClear(s: string, c: char) {
    |s| > 0 && s[|s| - 1] != c
  }

  /** Without property frames both paths are empty. */
  lemma {:induction false} NoPropertyFramesGiveEmptyPaths(frames: seq<Frame>)
    requires forall i :: 0 <= i < |frames| ==> !frames[i].PropertyFrame?
    ensures PropertyPath(frames) == ""
    ensures FieldPath(frames) == ""
  {
    NoPropertyFrames(frames);
  }

  lemma {:induction false} NoPropertyFrames(frames: seq<Frame>)
    requires forall i :: 0 <= i < |frames| ==> !frames[i].PropertyFrame?
    ensures OutermostClass(frames) == None
    ensures Segments(frames, PropertyStyle) == []
    ensures Segments(frames, FieldStyle) == []
  {
    if |frames| > 0 {
      NoPropertyFrames(frames[1..]);
    }
  }

  /** True iff `segment` is the segment of some property frame of the stack. */
  ghost predicate ComesFromFrame(segment: string, frames: seq<Frame>, style: Style) {
    exists i :: 0 <= i < |frames| && frames[i].PropertyFrame? && segment == Segment(style, frames[i])
  }

  /** A root class exists exactly when there is at least one segment, and
      every segment comes from some property frame of the stack. */
  lemma {:induction false} SegmentsOrigin(frames: seq<Frame>, style: Style)
    ensures OutermostClass(frames).Some? <==> |Segments(frames, style)| > 0
    ensures forall k :: 0 <= k < |Segments(frames, style)| ==>
      ComesFromFrame(Segments(frames, style)[k], frames, style)
  {
    if |frames| > 0 {
      SegmentsOrigin(frames[1..], style);
      var tail := Segments(frames[1..], style);
      var segs := Segments(frames, style);
      forall k | 0 <= k < |segs|
        ensures ComesFromFrame(segs[k], frames, style)
      {
        if k < |tail| {
          assert ComesFromFrame(tail[k], frames[1..], style);
          var j :| 0 <= j < |frames[1..]| && frames[1..][j].PropertyFrame? && tail[k] == Segment(style, frames[1..][j]);
          assert frames[j + 1] == frames[1..][j];
          assert segs[k] == tail[k];
        } else {
          assert frames[0].PropertyFrame? && segs[k] == Segment(style, frames[0]);
        }
      }
    }
  }

  /** Trimming a tail made of mask characters from a string whose last
      character is outside the mask gives back exactly that string. */
  lemma {:induction false} RTrimRemovesTail(s: string, t: string, mask: string)
    requires forall i :: 0 <= i < |t| ==> t[i] in mask
    requires |s| > 0 && s[|s| - 1] !in mask
    ensures RTrim(s + t, mask) == s
    decreases |t|
  {
    if |t| == 0 {
      assert s + t == s;
    } else {
      assert (s + t)[|s + t| - 1] == t[|t| - 1];
      assert (s + t)[..|s + t| - 1] == s + t[..|t| - 1];
      RTrimRemovesTail(s, t[..|t| - 1], mask);
    }
  }

  /** A terminated list is the joined list followed by one separator. */
  lemma {:induction false} TerminatedIsJoinThenSeparator(segments: seq<string>, sep: string)
    requires |segments| > 0
    ensures Terminated(segments, sep) == Join(segments, sep) + sep
  {
    if |segments| > 1 {
      TerminatedIsJoinThenSeparator(segments[1..], sep);
    } else {
      assert segments[1..] == [];
    }
  }

  /** A join ends with the last character of its last segment. */
  lemma {:induction false} JoinEndsWithLastSegment(segments: seq<string>, sep: string)
    requires |segments| > 0 && |segments[|segments| - 1]| > 0
    ensures |Join(segments, sep)| > 0
    ensures Join(segments, sep)[|Join(segments, sep)| - 1]
      == segments[|segments| - 1][|segments[|segments| - 1]| - 1]
  {
    if |segments| > 1 {
      JoinEndsWithLastSegment(segments[1..], sep);
    }
  }

  /** True iff no property frame's name ends with `:`; PHP property names
      never contain `:`. */
  predicate NamesClearOfColon(frames: seq<Frame>) {
    forall i :: 0 <= i < |frames| && frames[i].PropertyFrame? ==>
      !(|frames[i].name| > 0 && frames[i].name[|frames[i].name| - 1] == ':')
  }

  /** When no property name ends with `:`, the trim removes exactly the
      final separator: the property path is the root class followed by
      `$name` for each property, outermost first, joined by `::`. Without
      property frames it is empty. */
  lemma PropertyPathShape(frames: seq<Frame>)
    requires NamesClearOfColon(frames)
    ensures OutermostClass(frames).None? ==> PropertyPath(frames) == ""
    ensures OutermostClass(frames).Some? ==>
      PropertyPath(frames) == Join([OutermostClass(frames).value] + Segments(frames, PropertyStyle), PropertySeparator)
  {
    var segs := Segments(frames, PropertyStyle);
    SegmentsOrigin(frames, PropertyStyle);
    if OutermostClass(frames).Some? {
      var c := OutermostClass(frames).value;
      var all := [c] + segs;
      TerminatedIsJoinThenSeparator(segs, PropertySeparator);
      assert all[1..] == segs;
      assert Join(all, PropertySeparator) + PropertySeparator == c + PropertySeparator + Terminated(segs, PropertySeparator);
      LastSegmentClearOfColon(frames);
      JoinEndsWithLastSegment(all, PropertySeparator);
      RTrimRemovesTail(Join(all, PropertySeparator), PropertySeparator, PropertySeparator);
    } else {
      assert segs == [];
    }
  }

  lemma LastSegmentClearOfColon(frames: seq<Frame>)
    requires NamesClearOfColon(frames)
    requires |Segments(frames, PropertyStyle)| > 0
    ensures EndsClear(Segments(frames, PropertyStyle)[|Segments(frames, PropertyStyle)| - 1], ':')
  {
    var segs := Segments(frames, PropertyStyle);
    SegmentsOrigin(frames, PropertyStyle);
    assert ComesFromFrame(segs[|segs| - 1], frames, PropertyStyle);
    var i :| 0 <= i < |frames| && frames[i].PropertyFrame? && segs[|segs| - 1] == Segment(PropertyStyle, frames[i]);
    var n := frames[i].name;
    assert segs[|segs| - 1] == "$" + n;
    if |n| > 0 {
      assert ("$" + n)[|n|] == n[|n| - 1];
    }
  }

  /** When every field segment is non-empty and does not end with `.`, the
      trim removes exactly the final separator: the field path is the
      segments, outermost first, joined by `.`. */
  lemma FieldPathShape(frames: seq<Frame>)
    requires forall i :: 0 <= i < |frames| && frames[i].PropertyFrame? ==> EndsClear(Segment(FieldStyle, frames[i]), '.')
    ensures FieldPath(frames) == Join(Segments(frames, FieldStyle), FieldSeparator)
  {
    var segs := Segments(frames, FieldStyle);
    SegmentsOrigin(frames, FieldStyle);
    if |segs| > 0 {
      TerminatedIsJoinThenSeparator(segs, FieldSeparator);
      assert ComesFromFrame(segs[|segs| - 1], frames, FieldStyle);
      JoinEndsWithLastSegment(segs, FieldSeparator);
      RTrimRemovesTail(Join(segs, FieldSeparator), FieldSeparator, FieldSeparator);
    }
  }

  /** The trim is by character, not by separator: a serialized name that
      itself ends with `.` loses that dot too. */
  lemma FieldPathTrimsDotsOfNames()
    ensures FieldPath([PropertyFrame("User", "version", Some("v."))]) == "v"
  {
    var frames := [PropertyFrame("User", "version", Some("v."))];
    assert frames[1..] == [];
    assert Segments(frames, FieldStyle) == ["v."];
    assert Terminated(["v."], FieldSeparator) == "v..";
    var mask := FieldSeparator;
    assert '.' in mask by {
      assert FieldSeparator[0] == '.';
    }
    assert "v.."[..2] == "v.";
    assert "v."[..1] == "v";
    assert 'v' !in mask;
  }
}
