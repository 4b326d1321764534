/**
 Removal of dot segments (native_runtime/cpp/redirect_url.cc), against the segment-stack
 reading of section 5.2.4 of RFC 3986.
 */
module DotSegments {
  import opened SortedMap
  import opened Text

  //
  // Specification: a walk over the segments with a stack
  //

  /** Every segment with a slash before it. */
  function PathOf(segments: seq<string>): string
  {
    if segments == [] then "" else PathOf(segments[..|segments| - 1]) + "/" + segments[|segments| - 1]
  }

  function Pop(stack: seq<string>): seq<string>
  {
    if stack == [] then [] else stack[..|stack| - 1]
  }

  /** A dot segment in the last place leaves a trailing slash. */
  function Walk(stack: seq<string>, segments: seq<string>): (r: seq<string>)
    requires segments != []
    ensures r != []
    decreases |segments|
  {
    var here := if segments[0] == "." then stack else if segments[0] == ".." then Pop(stack) else stack + [segments[0]];
    if |segments| > 1 then Walk(here, segments[1..])
    else if segments[0] == "." || segments[0] == ".." then here + [""]
    else here
  }

  predicate Rooted(path: string) { path != "" && path[0] == '/' }

  function SegmentsOf(path: string): (segments: seq<string>)
    requires Rooted(path)
    ensures segments != []
  {
    Split(path[1..], '/')
  }

  function Normal(path: string): string
    requires Rooted(path)
  {
    PathOf(Walk([], SegmentsOf(path)))
  }

  //
  // The code
  //

  predicate StartsWith(s: string, prefix: string) { prefix <= s }

  /** std::string::find_last_of of one character. */
  function LastIndexOf(s: string, c: char): (r: Option<nat>)
    ensures r.Some? ==> r.value < |s| && s[r.value] == c && forall i :: r.value < i < |s| ==> s[i] != c
    ensures r.None? ==> c !in s
  {
    if s == "" then None
    else if s[|s| - 1] == c then Some(|s| - 1)
    else LastIndexOf(s[..|s| - 1], c)
  }

  function RemoveLastSegment(output: string): string
  {
    match LastIndexOf(output, '/')
    case None => ""
    case Some(slash) => output[..slash]
  }

  datatype Buffers = Buffers(input: string, output: string)

  /** One turn of the loop. */
  function Turn(b: Buffers): (next: Buffers)
    requires b.input != ""
    ensures |next.input| < |b.input|
  {
    var input, output := b.input, b.output;
    if StartsWith(input, "../") then Buffers(input[3..], output)
    else if StartsWith(input, "./") then Buffers(input[2..], output)
    else if StartsWith(input, "/./") then Buffers("/" + input[3..], output)
    else if input == "/." then Buffers("/", output)
    else if StartsWith(input, "/../") then Buffers("/" + input[4..], RemoveLastSegment(output))
    else if input == "/.." then Buffers("/", RemoveLastSegment(output))
    else if input == "." || input == ".." then Buffers("", output)
    else match IndexOf(input, '/', if input[0] == '/' then 1 else 0)
      case None => Buffers("", output + input)
      case Some(next) => Buffers(input[next..], output + input[..next])
  }

  function Turns(b: Buffers): string
    decreases |b.input|
  {
    if b.input == "" then b.output else Turns(Turn(b))
  }

  method RemoveDotSegments(path: string) returns (output: string)
    ensures output == Turns(Buffers(path, ""))
    ensures Rooted(path) ==> output == Normal(path)
  {
    var input := path;
    output := "";
    while input != ""
      invariant Turns(Buffers(path, "")) == Turns(Buffers(input, output))
      decreases |input|
    {
      ghost var before := Buffers(input, output);
      if StartsWith(input, "../") {
        input := input[3..];
      } else if StartsWith(input, "./") {
        input := input[2..];
      } else if StartsWith(input, "/./") {
        input := "/" + input[3..];
      } else if input == "/." {
        input := "/";
      } else if StartsWith(input, "/../") {
        input := "/" + input[4..];
        output := RemoveLastSegment(output);
      } else if input == "/.." {
        input := "/";
        output := RemoveLastSegment(output);
      } else if input == "." || input == ".." {
        input := "";
      } else {
        var next := IndexOf(input, '/', if input[0] == '/' then 1 else 0);
        if next == None {
          output := output + input;
          input := "";
        } else {
          output := output + input[..next.value];
          input := input[next.value..];
        }
      }
      assert Buffers(input, output) == Turn(before);
    }
    if Rooted(path) {
      TurnsWalk(Buffers(path, ""), []);
    }
  }

  /** On a rooted path the loop walks over the segments. */
  lemma {:induction false} TurnsWalk(b: Buffers, stack: seq<string>)
    requires Rooted(b.input) && b.output == PathOf(stack) && Free(stack, '/')
    ensures Turns(b) == PathOf(Walk(stack, SegmentsOf(b.input)))
    decreases |b.input|
  {
    hide Walk, PathOf, SegmentsOf, Turn;
    var stack' := TurnWalks(b, stack);
    if Turn(b).input != "" {
      TurnsWalk(Turn(b), stack');
    }
  }

  lemma TurnWalks(b: Buffers, stack: seq<string>) returns (stack': seq<string>)
    requires Rooted(b.input) && b.output == PathOf(stack) && Free(stack, '/')
    ensures Turn(b).output == PathOf(stack') && Free(stack', '/')
    ensures Turn(b).input == "" ==> Walk(stack, SegmentsOf(b.input)) == stack'
    ensures Turn(b).input != "" ==> Rooted(Turn(b).input)
    ensures Turn(b).input != "" ==> Walk(stack, SegmentsOf(b.input)) == Walk(stack', SegmentsOf(Turn(b).input))
  {
    hide Walk, PathOf, SegmentsOf, RemoveLastSegment;
    var input := b.input;
    stack' := stack;
    if StartsWith(input, "/./") {
      FirstSegment(input, ".", input[3..]);
      WalkOn(stack, SegmentsOf(input));
    } else if StartsWith(input, "/../") {
      FirstSegment(input, "..", input[4..]);
      WalkOn(stack, SegmentsOf(input));
      PopRemoves(stack);
      stack' := Pop(stack);
    } else if input == "/." || input == "/.." {
      OnlySegment(input, input[1..]);
      OnlySegment("/", "");
      WalkEnds(stack);
      PopRemoves(stack);
      if input == "/.." { stack' := Pop(stack); }
    } else if IndexOf(input, '/', 1) == None {
      stack' := LastTurn(b, stack);
    } else {
      stack' := NextTurn(b, stack);
    }
  }

  lemma LastTurn(b: Buffers, stack: seq<string>) returns (stack': seq<string>)
    requires Rooted(b.input) && b.output == PathOf(stack) && Free(stack, '/')
    requires !StartsWith(b.input, "/./") && !StartsWith(b.input, "/../") && b.input != "/." && b.input != "/.."
    requires IndexOf(b.input, '/', 1) == None
    ensures Turn(b).output == PathOf(stack') && Free(stack', '/')
    ensures Turn(b).input == "" && Walk(stack, SegmentsOf(b.input)) == stack'
  {
    hide Walk, PathOf, SegmentsOf, IndexOf, Turn;
    var input := b.input;
    TurnCopies(b);
    stack' := stack + [input[1..]];
    assert input == "/" + input[1..];
    OnlySegment(input, input[1..]);
    WalkOver(stack, input[1..]);
    PushAppends(stack, input[1..]);
    assert b.output + input == b.output + "/" + input[1..];
  }

  lemma NextTurn(b: Buffers, stack: seq<string>) returns (stack': seq<string>)
    requires Rooted(b.input) && b.output == PathOf(stack) && Free(stack, '/')
    requires !StartsWith(b.input, "/./") && !StartsWith(b.input, "/../") && b.input != "/." && b.input != "/.."
    requires IndexOf(b.input, '/', 1).Some?
    ensures Turn(b).output == PathOf(stack') && Free(stack', '/')
    ensures Rooted(Turn(b).input)
    ensures Walk(stack, SegmentsOf(b.input)) == Walk(stack', SegmentsOf(Turn(b).input))
  {
    hide Walk, PathOf, SegmentsOf, IndexOf, Turn;
    var input := b.input;
    var next := IndexOf(input, '/', 1).value;
    TurnCopies(b);
    var segment, rest := input[1..next], input[next + 1..];
    stack' := stack + [segment];
    assert input[..next] == "/" + segment && input[next..] == "/" + rest;
    CopiedWalks(input, segment, rest, stack);
    PushAppends(stack, segment);
    assert b.output + input[..next] == b.output + "/" + segment;
  }

  lemma CopiedWalks(input: string, segment: string, rest: string, stack: seq<string>)
    requires '/' !in segment && input == "/" + segment + "/" + rest
    requires !StartsWith(input, "/./") && !StartsWith(input, "/../")
    ensures Walk(stack, SegmentsOf(input)) == Walk(stack + [segment], SegmentsOf("/" + rest))
  {
    hide Walk, SegmentsOf;
    FirstSegment(input, segment, rest);
    PlainSegment(input, segment);
    WalkOn(stack, SegmentsOf(input));
  }

  lemma TurnCopies(b: Buffers)
    requires Rooted(b.input)
    requires !StartsWith(b.input, "/./") && !StartsWith(b.input, "/../") && b.input != "/." && b.input != "/.."
    ensures Turn(b) == match IndexOf(b.input, '/', 1)
                       case None => Buffers("", b.output + b.input)
                       case Some(next) => Buffers(b.input[next..], b.output + b.input[..next])
  {
    hide RemoveLastSegment, IndexOf;
  }

  //
  // Steps of the walk
  //

  lemma NothingYet()
    ensures PathOf([]) == ""
  {
  }

  lemma SegmentsFree(path: string)
    requires Rooted(path)
    ensures Free(SegmentsOf(path), '/') && Join(SegmentsOf(path), '/') == path[1..]
  {
    SplitJoins(path[1..], '/');
  }

  /** "/segment/rest" has the segments of "/rest" after its first. */
  lemma FirstSegment(path: string, segment: string, rest: string)
    requires '/' !in segment && path == "/" + segment + "/" + rest
    ensures SegmentsOf(path) == [segment] + SegmentsOf("/" + rest)
  {
    hide Split;
    assert ("/" + rest)[1..] == rest;
    var after := Split(rest, '/');
    SplitJoins(rest, '/');
    var parts := [segment] + after;
    assert parts[1..] == after;
    assert path[1..] == Join(parts, '/');
    JoinSplits(parts, '/');
  }

  lemma OnlySegment(path: string, segment: string)
    requires '/' !in segment && path == "/" + segment
    ensures SegmentsOf(path) == [segment]
  {
    hide Split;
    assert path[1..] == Join([segment], '/');
    JoinSplits([segment], '/');
  }

  lemma WalkOn(stack: seq<string>, segments: seq<string>)
    requires |segments| > 1
    ensures Walk(stack, segments) ==
            Walk(if segments[0] == "." then stack else if segments[0] == ".." then Pop(stack) else stack + [segments[0]],
                 segments[1..])
  {
  }

  lemma WalkEnds(stack: seq<string>)
    ensures Walk(stack, ["."]) == Walk(stack, [""]) && Walk(stack, [".."]) == Walk(Pop(stack), [""])
  {
  }

  lemma WalkOver(stack: seq<string>, segment: string)
    requires segment != "." && segment != ".."
    ensures Walk(stack, [segment]) == stack + [segment]
  {
  }

  lemma PlainSegment(path: string, segment: string)
    requires Rooted(path) && StartsWith(path, "/" + segment + "/")
    requires !StartsWith(path, "/./") && !StartsWith(path, "/../")
    ensures segment != "." && segment != ".."
  {
    assert "/" + "." + "/" == "/./" && "/" + ".." + "/" == "/../";
  }

  lemma PushAppends(stack: seq<string>, segment: string)
    ensures PathOf(stack + [segment]) == PathOf(stack) + "/" + segment
  {
    assert (stack + [segment])[..|stack|] == stack;
  }

  lemma PopRemoves(stack: seq<string>)
    requires Free(stack, '/')
    ensures RemoveLastSegment(PathOf(stack)) == PathOf(Pop(stack)) && Free(Pop(stack), '/')
  {
    hide LastIndexOf;
    if stack != [] {
      var front, last := PathOf(stack[..|stack| - 1]), stack[|stack| - 1];
      var slash := LastIndexOf(PathOf(stack), '/');
      assert PathOf(stack) == front + "/" + last && PathOf(stack)[|front|] == '/';
      assert forall i :: |front| < i < |PathOf(stack)| ==> PathOf(stack)[i] == last[i - |front| - 1];
      assert slash == Some(|front|);
      assert PathOf(stack)[..|front|] == front;
    }
  }

  //
  // What the removal achieves
  //

  ghost predicate NoDots(segments: seq<string>)
  {
    forall i :: 0 <= i < |segments| ==> segments[i] != "." && segments[i] != ".."
  }

  lemma {:induction false} WalkHasNoDots(stack: seq<string>, segments: seq<string>)
    requires segments != [] && NoDots(stack) && Free(stack, '/') && Free(segments, '/')
    ensures NoDots(Walk(stack, segments)) && Free(Walk(stack, segments), '/')
    decreases |segments|
  {
    var here := if segments[0] == "." then stack else if segments[0] == ".." then Pop(stack) else stack + [segments[0]];
    if |segments| > 1 { WalkHasNoDots(here, segments[1..]); }
  }

  lemma {:induction false} WalkKeeps(stack: seq<string>, segments: seq<string>)
    requires segments != [] && NoDots(segments)
    ensures Walk(stack, segments) == stack + segments
    decreases |segments|
  {
    if |segments| > 1 {
      WalkKeeps(stack + [segments[0]], segments[1..]);
      assert stack + [segments[0]] + segments[1..] == stack + segments;
    } else {
      assert segments == [segments[0]];
    }
  }

  lemma {:induction false} PathJoins(segments: seq<string>)
    requires segments != []
    ensures PathOf(segments) == "/" + Join(segments, '/')
  {
    var front, last := segments[..|segments| - 1], segments[|segments| - 1];
    if front != [] {
      PathJoins(front);
      JoinMore(front, [last], '/');
      assert segments == front + [last];
    }
  }

  /** The result is rooted, has no dot segment, and is its own normal form. */
  lemma NormalIsNormal(path: string)
    requires Rooted(path)
    ensures Rooted(Normal(path)) && NoDots(SegmentsOf(Normal(path))) && Normal(Normal(path)) == Normal(path)
  {
    hide Walk, PathOf, Split, Join;
    var walked := Walk([], SegmentsOf(path));
    SegmentsFree(path);
    WalkHasNoDots([], SegmentsOf(path));
    PathJoins(walked);
    JoinSplits(walked, '/');
    assert Normal(path)[1..] == Join(walked, '/');
    WalkKeeps([], walked);
    assert [] + walked == walked;
  }

  /** The characters of the result are slashes and characters of the path. */
  lemma NormalCharacters(path: string, c: char)
    requires Rooted(path) && c != '/' && c !in path
    ensures c !in Normal(path)
  {
    hide Walk, PathOf, Split;
    SegmentsFree(path);
    SegmentCharacters(path, c);
    WalkCharacters([], SegmentsOf(path), c);
    PathCharacters(Walk([], SegmentsOf(path)), c);
  }

  lemma SegmentCharacters(path: string, c: char)
    requires Rooted(path) && c !in path
    ensures Free(SegmentsOf(path), c)
  {
    hide Split;
    SegmentsFree(path);
    PartsFree(SegmentsOf(path), '/', c);
  }

  lemma {:induction false} WalkCharacters(stack: seq<string>, segments: seq<string>, c: char)
    requires segments != [] && Free(stack, c) && Free(segments, c)
    ensures Free(Walk(stack, segments), c)
    decreases |segments|
  {
    var here := if segments[0] == "." then stack else if segments[0] == ".." then Pop(stack) else stack + [segments[0]];
    if |segments| > 1 { WalkCharacters(here, segments[1..], c); }
  }

  lemma {:induction false} PathCharacters(segments: seq<string>, c: char)
    requires c != '/' && Free(segments, c)
    ensures c !in PathOf(segments)
  {
    if segments != [] { PathCharacters(segments[..|segments| - 1], c); }
  }
}
