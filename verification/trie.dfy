/** The route trie of the web framework (gee/trie.go).  Each node holds one
    segment of a route (`part`); a segment starting with `:` or `*` is wild.
    `pattern` is non-empty only on a node where a registered route ends.

    The trie is a tree (every node is reachable along exactly one path), so the
    model holds it as a value: `Insert` returns the updated node where the
    source updates the node in place. */
module Trie {
  import opened Wrappers

  datatype Node = Node(pattern: string, part: string, children: seq<Node>, isWild: bool)
  {
    /** A child is a candidate for a segment when its part equals the segment
        or it is wild. */
    predicate Matches(segment: string)
    {
      part == segment || isWild
    }

    /** `matchChild`: the first child, in order, that matches the segment. */
    method MatchChild(segment: string) returns (child: Option<Node>)
      ensures FirstMatch(children, segment).None? ==> child.None?
      ensures FirstMatch(children, segment).Some? ==> child == Some(children[FirstMatch(children, segment).value])
    {
      for i := 0 to |children|
        invariant forall j :: 0 <= j < i ==> !children[j].Matches(segment)
      {
        if children[i].part == segment || children[i].isWild {
          return Some(children[i]);
        }
      }
      return None;
    }

    /** `matchChildren`: every child that matches the segment, in order. */
    method MatchChildren(segment: string) returns (nodes: seq<Node>)
      ensures nodes == Matching(children, segment)
    {
      nodes := [];
      for i := 0 to |children|
        invariant nodes == Matching(children[..i], segment)
      {
        assert children[..i + 1][..i] == children[..i];
        if children[i].part == segment || children[i].isWild {
          nodes := nodes + [children[i]];
        }
      }
      assert children[..|children|] == children;
    }
  }

  /** The position of the first child matching the segment, if any. */
  function FirstMatch(children: seq<Node>, segment: string): (r: Option<nat>)
    ensures r.Some? ==> r.value < |children| && children[r.value].Matches(segment)
    ensures r.Some? ==> forall j :: 0 <= j < r.value ==> !children[j].Matches(segment)
    ensures r.None? ==> forall j :: 0 <= j < |children| ==> !children[j].Matches(segment)
  {
    if children == [] then None
    else
      var first := FirstMatch(children[..|children| - 1], segment);
      if first.Some? then first
      else if children[|children| - 1].Matches(segment) then Some(|children| - 1)
      else None
  }

  /** The children matching the segment, in their order. */
  function Matching(children: seq<Node>, segment: string): (r: seq<Node>)
    ensures |r| <= |children|
    ensures forall c :: c in r ==> c in children && c.Matches(segment)
    ensures forall c :: c in children && c.Matches(segment) ==> c in r
  {
    if children == [] then []
    else
      var last := children[|children| - 1];
      assert children == children[..|children| - 1] + [last];
      Matching(children[..|children| - 1], segment) + (if last.Matches(segment) then [last] else [])
  }

  /** `insert` picks the child that `search` tries first: the first matching
      child is the head of the matching children. */
  lemma {:induction false} FirstMatchIsFirstMatching(children: seq<Node>, segment: string)
    ensures FirstMatch(children, segment).None? <==> Matching(children, segment) == []
    ensures FirstMatch(children, segment).Some? ==>
      Matching(children, segment)[0] == children[FirstMatch(children, segment).value]
  {
    if children != [] {
      var init := children[..|children| - 1];
      FirstMatchIsFirstMatching(init, segment);
      if FirstMatch(init, segment).Some? {
        assert init[FirstMatch(init, segment).value] == children[FirstMatch(init, segment).value];
      }
    }
  }

  /** A segment that starts with the given character. */
  predicate StartsWith(s: string, c: char)
  {
    |s| > 0 && s[0] == c
  }

  /** The child `insert` creates for a segment it finds no match for. */
  function NewChild(segment: string): (c: Node)
    requires segment != ""
    ensures c.pattern == "" && c.part == segment && c.children == []
    ensures c.isWild <==> StartsWith(segment, ':') || StartsWith(segment, '*')
  {
    Node("", segment, [], segment[0] == ':' || segment[0] == '*')
  }

  /** The run-time panic of `part[0]` on an empty segment. */
  const IndexPanic: string := "runtime error: index out of range [0] with length 0"

  /** Segments from `height` on that are all non-empty. */
  predicate NonEmptySegments(parts: seq<string>, height: nat)
  {
    forall k :: height <= k < |parts| ==> parts[k] != ""
  }

  /** `insert`: walks down `parts` from `height`, reusing the first matching
      child at each level or appending a new one, and sets `pattern` on the node
      at depth `|parts|`; no other node's pattern changes.  An empty segment
      that no child matches panics when its first character is read. */
  function Insert(n: Node, pattern: string, parts: seq<string>, height: nat): (r: Result<Node>)
    requires height <= |parts|
    ensures NonEmptySegments(parts, height) ==> r.Success?
    ensures r.Failure? ==> r.error == IndexPanic && exists k :: height <= k < |parts| && parts[k] == ""
    ensures r.Success? ==> r.value.part == n.part && r.value.isWild == n.isWild
    ensures height == |parts| ==> r.Success? && r.value.pattern == pattern && r.value.children == n.children
    ensures height < |parts| && r.Success? ==> r.value.pattern == n.pattern
    ensures height < |parts| && r.Success? && FirstMatch(n.children, parts[height]).Some? ==>
      var i := FirstMatch(n.children, parts[height]).value;
      var child := Insert(n.children[i], pattern, parts, height + 1);
      child.Success? && r.value.children == n.children[i := child.value]
    ensures height < |parts| && r.Success? && FirstMatch(n.children, parts[height]).None? ==>
      parts[height] != "" &&
      var child := Insert(NewChild(parts[height]), pattern, parts, height + 1);
      child.Success? && r.value.children == n.children + [child.value]
    decreases |parts| - height
  {
    if |parts| == height then Success(n.(pattern := pattern))
    else
      var part := parts[height];
      match FirstMatch(n.children, part)
      case Some(i) =>
        var child := Insert(n.children[i], pattern, parts, height + 1);
        if child.Failure? then child
        else Success(n.(children := n.children[i := child.value]))
      case None =>
        if part == "" then Failure(IndexPanic)
        else
          var child := Insert(NewChild(part), pattern, parts, height + 1);
          if child.Failure? then child
          else Success(n.(children := n.children + [child.value]))
  }

  /** `search`: stops at depth `|parts|` or at a `*` node and answers that node
      if a route ends there; otherwise tries the matching children in order and
      answers the first success (a depth-first search). */
  function Search(n: Node, parts: seq<string>, height: nat): (r: Option<Node>)
    requires height <= |parts|
    ensures r.Some? ==> r.value.pattern != ""
    ensures |parts| == height || StartsWith(n.part, '*') ==>
      (r.Some? <==> n.pattern != "") && (r.Some? ==> r.value == n)
    decreases n, |n.children| + 1
  {
    if |parts| == height || StartsWith(n.part, '*') then
      if n.pattern == "" then None else Some(n)
    else
      SearchIn(n, Matching(n.children, parts[height]), parts, height + 1)
  }

  /** The loop of `search` over the matching children of `parent`. */
  function SearchIn(parent: Node, cs: seq<Node>, parts: seq<string>, height: nat): (r: Option<Node>)
    requires height <= |parts|
    requires |cs| <= |parent.children|
    requires forall c :: c in cs ==> c in parent.children
    ensures r.Some? ==> r.value.pattern != ""
    decreases parent, |cs|
  {
    if cs == [] then None
    else
      assert cs[0] in parent.children;
      match Search(cs[0], parts, height)
      case Some(found) => Some(found)
      case None => SearchIn(parent, cs[1..], parts, height)
  }

  /** The loop answers the result of the first node, in order, whose search
      succeeds, and nothing when every search fails. */
  lemma {:induction false} SearchInFirstFound(parent: Node, cs: seq<Node>, parts: seq<string>, height: nat)
    requires height <= |parts|
    requires |cs| <= |parent.children|
    requires forall c :: c in cs ==> c in parent.children
    ensures var r := SearchIn(parent, cs, parts, height);
      && (r.None? <==> forall j :: 0 <= j < |cs| ==> Search(cs[j], parts, height).None?)
      && (r.Some? ==> exists j :: (0 <= j < |cs| && Search(cs[j], parts, height) == r &&
            forall i :: 0 <= i < j ==> Search(cs[i], parts, height).None?))
    decreases |cs|
  {
    if cs != [] {
      var rest := cs[1..];
      assert forall c :: c in rest ==> c in cs;
      SearchInFirstFound(parent, rest, parts, height);
      if Search(cs[0], parts, height).None? {
        var r := SearchIn(parent, rest, parts, height);
        assert forall j :: 1 <= j < |cs| ==> cs[j] == rest[j - 1];
        if r.Some? {
          var j :| 0 <= j < |rest| && Search(rest[j], parts, height) == r &&
            forall i :: 0 <= i < j ==> Search(rest[i], parts, height).None?;
          assert Search(cs[j + 1], parts, height) == r;
        }
      }
    }
  }

  /** Below the last segment and away from a catch-all, `search` is a
      depth-first search over the matching children in their order. */
  lemma SearchDepthFirst(n: Node, parts: seq<string>, height: nat)
    requires height < |parts| && !StartsWith(n.part, '*')
    ensures var r := Search(n, parts, height);
      var cs := Matching(n.children, parts[height]);
      && (r.None? <==> forall j :: 0 <= j < |cs| ==> Search(cs[j], parts, height + 1).None?)
      && (r.Some? ==> exists j :: (0 <= j < |cs| && Search(cs[j], parts, height + 1) == r &&
            forall i :: 0 <= i < j ==> Search(cs[i], parts, height + 1).None?))
  {
    SearchInFirstFound(n, Matching(n.children, parts[height]), parts, height + 1);
  }

  /** No node of the trie is a catch-all (`*`) node. */
  ghost predicate NoCatchAll(n: Node)
  {
    && !StartsWith(n.part, '*')
    && forall c :: c in n.children ==> NoCatchAll(c)
  }

  /** A route whose segments are non-empty and none a catch-all. */
  ghost predicate PlainRoute(parts: seq<string>, height: nat)
  {
    forall k :: height <= k < |parts| ==> parts[k] != "" && !StartsWith(parts[k], '*')
  }

  /** A node with no catch-all part whose children hold no catch-all node. */
  lemma NoCatchAllOfChildren(n: Node)
    requires !StartsWith(n.part, '*')
    requires forall j :: 0 <= j < |n.children| ==> NoCatchAll(n.children[j])
    ensures NoCatchAll(n)
  {
    forall c | c in n.children ensures NoCatchAll(c) {
      var j :| 0 <= j < |n.children| && n.children[j] == c;
    }
  }

  /** Inserting a route without catch-all segments adds no catch-all node. */
  lemma {:induction false} InsertKeepsNoCatchAll(n: Node, pattern: string, parts: seq<string>, height: nat)
    requires height <= |parts| && PlainRoute(parts, height) && NoCatchAll(n)
    ensures Insert(n, pattern, parts, height).Success?
    ensures NoCatchAll(Insert(n, pattern, parts, height).value)
    decreases |parts| - height
  {
    var r := Insert(n, pattern, parts, height).value;
    if height < |parts| {
      var part := parts[height];
      var m := FirstMatch(n.children, part);
      var child := if m.Some? then n.children[m.value] else NewChild(part);
      InsertKeepsNoCatchAll(child, pattern, parts, height + 1);
      var inserted := Insert(child, pattern, parts, height + 1).value;
      var k := if m.Some? then m.value else |n.children|;
      assert r.children == if m.Some? then n.children[k := inserted] else n.children + [inserted];
      forall j | 0 <= j < |r.children| ensures NoCatchAll(r.children[j]) {
        if j != k { assert r.children[j] == n.children[j] && n.children[j] in n.children; }
      }
      NoCatchAllOfChildren(r);
    }
  }

  /** `search` descends first into the first matching child, and answers what
      that child answers when it finds a route. */
  lemma SearchFirstChild(r: Node, parts: seq<string>, height: nat, k: nat)
    requires height < |parts| && !StartsWith(r.part, '*')
    requires FirstMatch(r.children, parts[height]) == Some(k)
    requires Search(r.children[k], parts, height + 1).Some?
    ensures Search(r, parts, height) == Search(r.children[k], parts, height + 1)
  {
    FirstMatchIsFirstMatching(r.children, parts[height]);
  }

  /** Replacing the first matching child by another matching node keeps it first. */
  lemma FirstMatchReplaced(children: seq<Node>, segment: string, i: nat, c: Node)
    requires FirstMatch(children, segment) == Some(i) && c.Matches(segment)
    ensures FirstMatch(children[i := c], segment) == Some(i)
  {
    var updated := children[i := c];
    assert updated[i] == c;
    forall j | 0 <= j < i ensures !updated[j].Matches(segment) {
      assert updated[j] == children[j];
    }
  }

  /** Appending a matching node where none matched makes it the first match. */
  lemma FirstMatchAppended(children: seq<Node>, segment: string, c: Node)
    requires FirstMatch(children, segment).None? && c.Matches(segment)
    ensures FirstMatch(children + [c], segment) == Some(|children|)
  {
    forall j | 0 <= j < |children| ensures !(children + [c])[j].Matches(segment) {
      assert (children + [c])[j] == children[j];
    }
  }

  /** Registering a route and then looking it up finds the node carrying that
      route, in any trie without catch-all nodes and for any route without a
      catch-all segment: `search` tries first the very child `insert` chose. */
  lemma {:induction false} InsertThenSearch(n: Node, pattern: string, parts: seq<string>, height: nat)
    requires height <= |parts| && pattern != ""
    requires PlainRoute(parts, height) && NoCatchAll(n)
    ensures Insert(n, pattern, parts, height).Success?
    ensures var found := Search(Insert(n, pattern, parts, height).value, parts, height);
      found.Some? && found.value.pattern == pattern
    decreases |parts| - height
  {
    var r := Insert(n, pattern, parts, height).value;
    if height < |parts| {
      var part := parts[height];
      match FirstMatch(n.children, part)
      case Some(i) =>
        InsertThenSearch(n.children[i], pattern, parts, height + 1);
        var child := Insert(n.children[i], pattern, parts, height + 1).value;
        FirstMatchReplaced(n.children, part, i, child);
        SearchFirstChild(r, parts, height, i);
      case None =>
        InsertThenSearch(NewChild(part), pattern, parts, height + 1);
        var child := Insert(NewChild(part), pattern, parts, height + 1).value;
        FirstMatchAppended(n.children, part, child);
        SearchFirstChild(r, parts, height, |n.children|);
    }
  }

  /** A single matching child is all the matching children. */
  lemma MatchingSingle(c: Node, segment: string)
    requires c.Matches(segment)
    ensures Matching([c], segment) == [c]
  {
    assert [c][..0] == [];
  }

  /** A query follows a route when it has the route's length and agrees with it
      on every segment that is not a `:` parameter. */
  ghost predicate Follows(query: seq<string>, parts: seq<string>, height: nat)
  {
    && |query| == |parts|
    && forall k :: height <= k < |parts| ==> query[k] == parts[k] || StartsWith(parts[k], ':')
  }

  /** A `:` parameter matches any segment: a route registered below a node with
      no children is found by every query that follows it. */
  lemma {:induction false} ParamMatchesAnySegment(n: Node, pattern: string, parts: seq<string>, query: seq<string>, height: nat)
    requires height <= |parts| && pattern != "" && n.children == [] && !StartsWith(n.part, '*')
    requires PlainRoute(parts, height) && Follows(query, parts, height)
    ensures Insert(n, pattern, parts, height).Success?
    ensures var found := Search(Insert(n, pattern, parts, height).value, query, height);
      found.Some? && found.value.pattern == pattern
    decreases |parts| - height
  {
    if height < |parts| {
      var part := parts[height];
      var child := Insert(NewChild(part), pattern, parts, height + 1).value;
      ParamMatchesAnySegment(NewChild(part), pattern, parts, query, height + 1);
      var r := Insert(n, pattern, parts, height).value;
      assert r.children == [child];
      assert child.Matches(query[height]);
      MatchingSingle(child, query[height]);
      assert SearchIn(r, [child], query, height + 1) == Search(child, query, height + 1);
    }
  }
}
