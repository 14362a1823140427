/**
 The virtual drive of WebAssembly/harness/launcher-desktop-apps.js (lines
 45-108, 394-456): a tree of nodes that name their parents, edited by
 create, rename and delete, each undone if the browser cannot store it.
 */
module Drive {
  import opened Common
  import opened Decimals

  /** `details` stands for the fields that no operation reads. */
  datatype Node = Node(id: string, parent: Option<string>, name: string, modified: nat, details: string)

  // ----- Names

  function LowerChar(c: char): char {
    if 'A' <= c <= 'Z' then (c as int + 32) as char else c
  }

  function Lower(name: string): (r: string)
    ensures |r| == |name|
  {
    seq(|name|, i requires 0 <= i < |name| => LowerChar(name[i]))
  }

  lemma LowerOfJoined(a: string, b: string)
    ensures Lower(a + b) == Lower(a) + Lower(b)
  {
  }

  lemma {:induction false} DigitsHaveNoCase(n: nat)
    ensures Lower(Decimal(n)) == Decimal(n)
  {
    if n >= 10 {
      DigitsHaveNoCase(n / 10);
      LowerOfJoined(Decimal(n / 10), [Digit(n % 10)]);
    }
  }

  /** Where the last full stop is, or -1. */
  function LastDot(name: string): (dot: int)
    ensures -1 <= dot < |name|
    ensures dot >= 0 ==> name[dot] == '.'
    ensures forall i :: dot < i < |name| ==> name[i] != '.'
  {
    if name == "" then -1 else if name[|name| - 1] == '.' then |name| - 1 else LastDot(name[..|name| - 1])
  }

  function Base(name: string): string {
    if LastDot(name) > 0 then name[..LastDot(name)] else name
  }

  function Extension(name: string): string {
    if LastDot(name) > 0 then name[LastDot(name)..] else ""
  }

  /** The requested name with a number before its extension. */
  function Candidate(requested: string, index: nat): string {
    Base(requested) + " (" + Decimal(index) + ")" + Extension(requested)
  }

  lemma LowerOfCandidate(requested: string, index: nat)
    ensures Lower(Candidate(requested, index)) ==
            Lower(Base(requested)) + " (" + Decimal(index) + ")" + Lower(Extension(requested))
  {
    LowerOfJoined(Base(requested), " (");
    LowerOfJoined(Base(requested) + " (", Decimal(index));
    LowerOfJoined(Base(requested) + " (" + Decimal(index), ")");
    LowerOfJoined(Base(requested) + " (" + Decimal(index) + ")", Extension(requested));
    DigitsHaveNoCase(index);
    assert Lower(" (") == " (" && Lower(")") == ")";
  }

  /** Different numbers give names that differ in more than case. */
  lemma CandidatesDiffer(requested: string, i: nat, j: nat)
    requires Lower(Candidate(requested, i)) == Lower(Candidate(requested, j))
    ensures i == j
  {
    LowerOfCandidate(requested, i);
    LowerOfCandidate(requested, j);
    var before, after := Lower(Base(requested)) + " (", ")" + Lower(Extension(requested));
    assert Lower(Candidate(requested, i)) == before + Decimal(i) + after;
    assert Lower(Candidate(requested, j)) == before + Decimal(j) + after;
    MiddleIsEqual(before, Decimal(i), Decimal(j), after);
    DecimalIsInjective(i, j);
  }

  lemma MiddleIsEqual(before: string, x: string, y: string, after: string)
    requires before + x + after == before + y + after
    ensures x == y
  {
    var whole := before + x + after;
    assert |x| == |y|;
    assert x == whole[|before|..|before| + |x|] == y;
  }

  /** In another folder, or nowhere, a name is free: it is kept as asked for. */
  lemma FreeNamesAreKept(nodes: seq<Node>, folder: Option<string>, ignored: Option<string>, requested: string,
                         name: string)
    requires IsUniqueName(Siblings(nodes, folder, ignored), requested, name)
    requires forall i :: 0 <= i < |nodes| && nodes[i].parent == folder ==> Lower(nodes[i].name) != Lower(requested)
    ensures name == requested
  {
    hide Lower, Candidate;
  }

  /** A node may keep its own name, in another case if it likes. */
  lemma OwnNameIsFree(nodes: seq<Node>, k: nat, requested: string, name: string)
    requires ValidDrive(nodes) && k < |nodes| && Lower(nodes[k].name) == Lower(requested)
    requires IsUniqueName(Siblings(nodes, nodes[k].parent, Some(nodes[k].id)), requested, name)
    ensures name == requested
  {
    hide Lower, Candidate, NoOrphans;
    forall i | 0 <= i < |nodes| && nodes[i].parent == nodes[k].parent && nodes[i].id != nodes[k].id
      ensures Lower(nodes[i].name) != Lower(requested)
    {
      assert i < k || k < i;
    }
  }

  /** The first namesake in a folder becomes number 2. */
  lemma NamesakeBecomesTwo(nodes: seq<Node>, folder: Option<string>, requested: string, name: string, k: nat)
    requires IsUniqueName(Siblings(nodes, folder, None), requested, name)
    requires k < |nodes| && nodes[k].parent == folder && Lower(nodes[k].name) == Lower(requested)
    requires forall i :: 0 <= i < |nodes| && nodes[i].parent == folder ==>
               Lower(nodes[i].name) != Lower(Candidate(requested, 2))
    ensures name == Candidate(requested, 2)
  {
    hide Lower, Candidate;
    var siblings, two := Siblings(nodes, folder, None), Candidate(requested, 2);
    assert Lower(nodes[k].name) in siblings && Lower(two) !in siblings;
    var index :| IsFirstFree(siblings, requested, index) && name == Candidate(requested, index);
  }

  lemma {:induction false} LastDotIs(name: string, dot: nat)
    requires dot < |name| && name[dot] == '.' && forall i :: dot < i < |name| ==> name[i] != '.'
    ensures LastDot(name) == dot
  {
  }

  /** The number goes before the extension. */
  lemma NumberedWithExtension(stem: string, extension: string, index: nat)
    requires stem != "" && forall i :: 0 <= i < |extension| ==> extension[i] != '.'
    ensures Candidate(stem + "." + extension, index) == stem + " (" + Decimal(index) + ")." + extension
  {
    hide Decimal;
    var name := stem + "." + extension;
    assert forall i :: |stem| < i < |name| ==> name[i] == extension[i - |stem| - 1];
    LastDotIs(name, |stem|);
    assert name[..|stem|] == stem && name[|stem|..] == "." + extension;
    assert Candidate(name, index) == stem + " (" + Decimal(index) + ")" + ("." + extension);
    assert ")" + ("." + extension) == ")." + extension;
  }

  /** Without one, or with nothing before the only dot, it goes to the end. */
  lemma NumberedWithoutExtension(name: string, index: nat)
    requires forall i :: 1 <= i < |name| ==> name[i] != '.'
    ensures Candidate(name, index) == name + " (" + Decimal(index) + ")"
  {
    hide Decimal;
    assert LastDot(name) <= 0;
    assert Candidate(name, index) == name + " (" + Decimal(index) + ")" + "";
  }

  /** The numbers 2, 3, ... that are all taken are no more than the siblings. */
  lemma TakenNumbersAreFew(requested: string, siblings: set<string>, index: nat)
    requires index >= 2 && forall i :: 2 <= i < index ==> Lower(Candidate(requested, i)) in siblings
    ensures index - 2 <= |siblings|
  {
    var names := seq(index - 2, k requires 0 <= k < index - 2 => Lower(Candidate(requested, k + 2)));
    forall i, j | 0 <= i < j < |names| ensures names[i] != names[j] {
      if names[i] == names[j] {
        CandidatesDiffer(requested, i + 2, j + 2);
      }
    }
    DistinctLength(names, siblings);
  }

  /** The lower-cased names of a folder's children, one node aside. */
  function Siblings(nodes: seq<Node>, parent: Option<string>, ignored: Option<string>): set<string> {
    set i | 0 <= i < |nodes| && nodes[i].parent == parent && Some(nodes[i].id) != ignored :: Lower(nodes[i].name)
  }

  /** The requested name if it is free, and otherwise the first numbered one that is. */
  ghost predicate IsUniqueName(siblings: set<string>, requested: string, name: string) {
    && Lower(name) !in siblings
    && (Lower(requested) !in siblings ==> name == requested)
    && (Lower(requested) in siblings ==>
          exists index :: IsFirstFree(siblings, requested, index) && name == Candidate(requested, index))
  }

  ghost predicate IsFirstFree(siblings: set<string>, requested: string, index: nat) {
    && index >= 2 && Lower(Candidate(requested, index)) !in siblings
    && forall i :: 2 <= i < index ==> Lower(Candidate(requested, i)) in siblings
  }

  // ----- The tree

  ghost function Ids(nodes: seq<Node>): set<string> {
    set i | 0 <= i < |nodes| :: nodes[i].id
  }

  ghost predicate DistinctIds(nodes: seq<Node>) {
    && (forall i :: 0 <= i < |nodes| ==> nodes[i].id != "")
    && forall i, j :: 0 <= i < j < |nodes| ==> nodes[i].id != nodes[j].id
  }

  /** Every parent that a node names exists. */
  ghost predicate NoOrphans(nodes: seq<Node>) {
    forall i :: 0 <= i < |nodes| && nodes[i].parent.Some? ==> nodes[i].parent.value in Ids(nodes)
  }

  /** No two children of a folder have the same name up to case. */
  ghost predicate SiblingsDiffer(nodes: seq<Node>) {
    forall i, j :: 0 <= i < j < |nodes| && nodes[i].parent == nodes[j].parent ==>
      Lower(nodes[i].name) != Lower(nodes[j].name)
  }

  ghost predicate ValidDrive(nodes: seq<Node>) {
    DistinctIds(nodes) && NoOrphans(nodes) && SiblingsDiffer(nodes)
  }

  /** `id` is `top` or hangs below it, through at most `steps` parents. */
  ghost predicate HangsBelow(nodes: seq<Node>, id: string, top: string, steps: nat)
    decreases steps
  {
    || id == top
    || (steps > 0 && exists i ::
          && 0 <= i < |nodes| && nodes[i].id == id && nodes[i].parent.Some? && nodes[i].parent.value != ""
          && HangsBelow(nodes, nodes[i].parent.value, top, steps - 1))
  }

  ghost predicate Hangs(nodes: seq<Node>, id: string, top: string) {
    exists steps: nat :: HangsBelow(nodes, id, top, steps)
  }

  /** The set holds exactly the node and what hangs below it. */
  ghost predicate IsSubtree(nodes: seq<Node>, top: string, ids: set<string>) {
    forall id :: id in ids <==> Hangs(nodes, id, top)
  }

  ghost predicate ChildOf(node: Node, ids: set<string>) {
    node.parent.Some? && node.parent.value != "" && node.parent.value in ids
  }

  ghost predicate ClosedUpTo(nodes: seq<Node>, ids: set<string>, done: nat)
    requires done <= |nodes|
  {
    forall i :: 0 <= i < done && ChildOf(nodes[i], ids) ==> nodes[i].id in ids
  }

  ghost predicate ClosedBelow(nodes: seq<Node>, ids: set<string>) {
    ClosedUpTo(nodes, ids, |nodes|)
  }

  lemma {:induction false} ClosedHoldsDescendants(nodes: seq<Node>, ids: set<string>, top: string, id: string,
                                                  steps: nat)
    requires ClosedBelow(nodes, ids) && top in ids && HangsBelow(nodes, id, top, steps)
    ensures id in ids
    decreases steps
  {
    if id != top {
      var i :| 0 <= i < |nodes| && nodes[i].id == id && nodes[i].parent.Some? && nodes[i].parent.value != ""
               && HangsBelow(nodes, nodes[i].parent.value, top, steps - 1);
      ClosedHoldsDescendants(nodes, ids, top, nodes[i].parent.value, steps - 1);
    }
  }

  /** Removing a closed set of nodes leaves every remaining node its parent. */
  lemma ClosedRemovalLeavesNoOrphans(nodes: seq<Node>, kept: seq<Node>, ids: set<string>)
    requires NoOrphans(nodes) && DistinctIds(nodes) && ClosedBelow(nodes, ids)
    requires forall x :: x in kept <==> x in nodes && x.id !in ids
    ensures NoOrphans(kept)
  {
    forall i | 0 <= i < |kept| && kept[i].parent.Some? ensures kept[i].parent.value in Ids(kept) {
      var k :| 0 <= k < |nodes| && nodes[k] == kept[i];
      assert nodes[k].parent.value in Ids(nodes);
      var p :| 0 <= p < |nodes| && nodes[p].id == nodes[k].parent.value;
      var q :| 0 <= q < |kept| && kept[q] == nodes[p];
      assert kept[q].id in Ids(kept);
    }
  }

  lemma HangsFromItself(nodes: seq<Node>, top: string)
    ensures Hangs(nodes, top, top)
  {
    assert HangsBelow(nodes, top, top, 0);
  }

  lemma HasItsId(nodes: seq<Node>, i: nat)
    requires i < |nodes|
    ensures nodes[i].id in Ids(nodes)
  {
  }

  lemma IsASibling(nodes: seq<Node>, i: nat, parent: Option<string>, ignored: Option<string>)
    requires i < |nodes| && nodes[i].parent == parent && Some(nodes[i].id) != ignored
    ensures Lower(nodes[i].name) in Siblings(nodes, parent, ignored)
  {
    hide Lower;
  }

  lemma UniqueNameIsFree(siblings: set<string>, requested: string, name: string)
    requires IsUniqueName(siblings, requested, name)
    ensures Lower(name) !in siblings
  {
    hide Lower, Candidate;
  }

  ghost predicate AllHang(nodes: seq<Node>, top: string, ids: set<string>) {
    forall id :: id in ids ==> Hangs(nodes, id, top)
  }

  lemma ChildHangs(nodes: seq<Node>, top: string, ids: set<string>, i: nat)
    requires AllHang(nodes, top, ids) && i < |nodes| && nodes[i].parent.Some? && nodes[i].parent.value != ""
    requires nodes[i].parent.value in ids
    ensures AllHang(nodes, top, ids + {nodes[i].id}) && nodes[i].id in Ids(nodes)
  {
    var steps: nat :| HangsBelow(nodes, nodes[i].parent.value, top, steps);
    assert HangsBelow(nodes, nodes[i].id, top, steps + 1);
  }

  lemma ProperSubsetIsSmaller(small: set<string>, large: set<string>)
    requires small <= large && small != large
    ensures |small| < |large|
  {
    var extra := Missing(small, large);
    SubsetIsNoLarger(small, large - {extra});
  }

  lemma {:induction false} SubsetIsNoLarger(small: set<string>, large: set<string>)
    requires small <= large
    ensures |small| <= |large|
  {
    if small != {} {
      var x :| x in small;
      SubsetIsNoLarger(small - {x}, large - {x});
    }
  }

  // ----- What the edits keep

  lemma CreatingKeepsTheDrive(nodes: seq<Node>, node: Node)
    requires ValidDrive(nodes) && node.id != "" && node.id !in Ids(nodes)
    requires node.parent.Some? ==> node.parent.value in Ids(nodes)
    requires Lower(node.name) !in Siblings(nodes, node.parent, None)
    ensures ValidDrive(nodes + [node])
  {
    hide Lower, Siblings, Ids, SiblingsDiffer, DistinctIds;
    IdsOfMore(nodes, node);
    NewIdIsDistinct(nodes, node);
    NewNameDiffers(nodes, node);
    assert forall i :: 0 <= i < |nodes| ==> (nodes + [node])[i] == nodes[i];
  }

  /** A new node is an orphan exactly when its folder does not exist. */
  lemma CreatingNeedsTheFolder(nodes: seq<Node>, node: Node)
    requires NoOrphans(nodes) && node.parent.Some?
    ensures NoOrphans(nodes + [node]) <==> node.parent.value in Ids(nodes) || node.parent.value == node.id
  {
    hide Ids;
    IdsOfMore(nodes, node);
    assert (nodes + [node])[|nodes|] == node;
    assert forall i :: 0 <= i < |nodes| ==> (nodes + [node])[i] == nodes[i];
  }

  lemma NewIdIsDistinct(nodes: seq<Node>, node: Node)
    requires DistinctIds(nodes) && node.id != "" && node.id !in Ids(nodes)
    ensures DistinctIds(nodes + [node])
  {
    hide Ids;
    forall i | 0 <= i < |nodes| ensures nodes[i].id != node.id {
      HasItsId(nodes, i);
    }
  }

  lemma NewNameDiffers(nodes: seq<Node>, node: Node)
    requires SiblingsDiffer(nodes) && Lower(node.name) !in Siblings(nodes, node.parent, None)
    ensures SiblingsDiffer(nodes + [node])
  {
    hide Lower, Siblings;
    forall i | 0 <= i < |nodes| && nodes[i].parent == node.parent ensures Lower(nodes[i].name) != Lower(node.name) {
      IsASibling(nodes, i, node.parent, None);
    }
  }

  lemma IdsOfMore(nodes: seq<Node>, node: Node)
    ensures Ids(nodes + [node]) == Ids(nodes) + {node.id}
  {
    var more := nodes + [node];
    forall id | id in Ids(nodes) + {node.id} ensures id in Ids(more) {
      if id in Ids(nodes) {
        var i :| 0 <= i < |nodes| && nodes[i].id == id;
        assert more[i].id == id;
      } else {
        assert more[|nodes|].id == id;
      }
    }
  }

  lemma RenamingKeepsTheDrive(nodes: seq<Node>, k: nat, name: string, modified: nat)
    requires ValidDrive(nodes) && k < |nodes|
    requires Lower(name) !in Siblings(nodes, nodes[k].parent, Some(nodes[k].id))
    ensures ValidDrive(nodes[k := nodes[k].(name := name, modified := modified)])
  {
    hide Lower, Siblings, Ids;
    var renamed := nodes[k := nodes[k].(name := name, modified := modified)];
    assert forall i :: 0 <= i < |nodes| ==> renamed[i].id == nodes[i].id && renamed[i].parent == nodes[i].parent;
    SameIds(nodes, renamed);
    forall i | 0 <= i < |nodes| && i != k && nodes[i].parent == nodes[k].parent
      ensures Lower(nodes[i].name) != Lower(name)
    {
      assert nodes[i].id != nodes[k].id;
      IsASibling(nodes, i, nodes[k].parent, Some(nodes[k].id));
    }
  }

  lemma SameIds(nodes: seq<Node>, others: seq<Node>)
    requires |others| == |nodes| && forall i :: 0 <= i < |nodes| ==> others[i].id == nodes[i].id
    ensures Ids(others) == Ids(nodes)
  {
    forall id | id in Ids(nodes) ensures id in Ids(others) {
      var i :| 0 <= i < |nodes| && nodes[i].id == id;
      assert others[i].id == id;
    }
  }

  /** The nodes whose identifiers are not in a set, in their order. */
  function Without(nodes: seq<Node>, ids: set<string>): seq<Node> {
    if nodes == [] then []
    else
      var last := nodes[|nodes| - 1];
      Without(nodes[..|nodes| - 1], ids) + if last.id in ids then [] else [last]
  }

  lemma {:induction false} WithoutIsTheRest(nodes: seq<Node>, ids: set<string>)
    ensures forall x :: x in Without(nodes, ids) <==> x in nodes && x.id !in ids
  {
    if nodes != [] {
      var init, last := nodes[..|nodes| - 1], nodes[|nodes| - 1];
      WithoutIsTheRest(init, ids);
      assert nodes == init + [last];
    }
  }

  lemma {:induction false} WithoutKeepsIds(nodes: seq<Node>, ids: set<string>)
    requires DistinctIds(nodes)
    ensures DistinctIds(Without(nodes, ids))
  {
    if nodes != [] {
      var init, last := nodes[..|nodes| - 1], nodes[|nodes| - 1];
      WithoutKeepsIds(init, ids);
      WithoutIsTheRest(init, ids);
      forall x | x in Without(init, ids) ensures x.id != last.id {
        var k :| 0 <= k < |init| && init[k] == x;
        assert nodes[k] == x;
      }
    }
  }

  lemma {:induction false} WithoutKeepsNames(nodes: seq<Node>, ids: set<string>)
    requires SiblingsDiffer(nodes)
    ensures SiblingsDiffer(Without(nodes, ids))
  {
    hide Lower;
    if nodes != [] {
      var init, last := nodes[..|nodes| - 1], nodes[|nodes| - 1];
      WithoutKeepsNames(init, ids);
      WithoutIsTheRest(init, ids);
      forall x | x in Without(init, ids) && x.parent == last.parent ensures Lower(x.name) != Lower(last.name) {
        var k :| 0 <= k < |init| && init[k] == x;
        assert nodes[k] == x;
      }
    }
  }

  lemma SubtreeIsClosed(nodes: seq<Node>, top: string, ids: set<string>)
    requires IsSubtree(nodes, top, ids)
    ensures ClosedBelow(nodes, ids)
  {
    forall i | 0 <= i < |nodes| && ChildOf(nodes[i], ids) ensures nodes[i].id in ids {
      var steps: nat :| HangsBelow(nodes, nodes[i].parent.value, top, steps);
      assert HangsBelow(nodes, nodes[i].id, top, steps + 1);
    }
  }

  /** Without a node and all that hangs below it, the rest of the drive is still a valid one. */
  lemma DeletingASubtreeKeepsTheDrive(nodes: seq<Node>, top: string, ids: set<string>)
    requires ValidDrive(nodes) && IsSubtree(nodes, top, ids)
    ensures ValidDrive(Without(nodes, ids))
    ensures forall x :: x in Without(nodes, ids) <==> x in nodes && !Hangs(nodes, x.id, top)
  {
    SubtreeIsClosed(nodes, top, ids);
    DeletingKeepsTheDrive(nodes, ids);
    WithoutIsTheRest(nodes, ids);
  }

  lemma DeletingKeepsTheDrive(nodes: seq<Node>, ids: set<string>)
    requires ValidDrive(nodes) && ClosedBelow(nodes, ids)
    ensures ValidDrive(Without(nodes, ids))
  {
    WithoutKeepsIds(nodes, ids);
    WithoutKeepsNames(nodes, ids);
    WithoutIsTheRest(nodes, ids);
    ClosedRemovalLeavesNoOrphans(nodes, Without(nodes, ids), ids);
  }

  // ----- The prompt's input

  predicate Forbidden(c: char) {
    c in "\\/:*?\"<>|"
  }

  /** The white space and line terminators that String.prototype.trim removes (ECMAScript, sections 12.2 and 12.3). */
  predicate Blank(c: char) {
    var n := c as int;
    || 0x9 <= n <= 0xd || n == 0x20 || n == 0xa0 || n == 0x1680 || 0x2000 <= n <= 0x200a
    || n == 0x2028 || n == 0x2029 || n == 0x202f || n == 0x205f || n == 0x3000 || n == 0xfeff
  }

  function Trim(text: string): (r: string)
    ensures r != "" ==> !Blank(r[0]) && !Blank(r[|r| - 1])
  {
    if text == "" then ""
    else if Blank(text[0]) then Trim(text[1..])
    else if Blank(text[|text| - 1]) then Trim(text[..|text| - 1])
    else text
  }

  /** Trimming takes off blanks at the ends and nothing else. */
  lemma {:induction false} TrimTakesBlanks(text: string) returns (first: nat, last: nat)
    ensures first <= last <= |text| && Trim(text) == text[first..last]
    ensures forall k :: 0 <= k < first || last <= k < |text| ==> Blank(text[k])
  {
    hide Blank;
    if text == "" {
      first, last := 0, 0;
    } else if Blank(text[0]) {
      var i, j := TrimTakesBlanks(text[1..]);
      first, last := i + 1, j + 1;
      assert text[1..][i..j] == text[first..last];
      assert forall k :: 1 <= k < |text| ==> text[k] == text[1..][k - 1];
    } else if Blank(text[|text| - 1]) {
      first, last := TrimTakesBlanks(text[..|text| - 1]);
      assert text[..|text| - 1][first..last] == text[first..last];
    } else {
      first, last := 0, |text|;
    }
  }

  /** The name a prompt asks for: trimmed, with a dash for every character a file name may not have. */
  function Requested(input: string): (r: string)
    ensures forall i :: 0 <= i < |r| ==> !Forbidden(r[i])
    ensures |r| == |Trim(input)|
  {
    var trimmed := Trim(input);
    seq(|trimmed|, i requires 0 <= i < |trimmed| => if Forbidden(trimmed[i]) then '-' else trimmed[i])
  }

  /** Character by character: what a file name may not have becomes a dash, the rest stays. */
  lemma RequestedCharacters(input: string, i: nat)
    requires i < |Requested(input)|
    ensures var c := Trim(input)[i];
            Requested(input)[i] == if c in ['\\', '/', ':', '*', '?', '"', '<', '>', '|'] then '-' else c
  {
  }

  /** A name that needs no repair is asked for as it stands, so repairing a repaired name changes nothing. */
  lemma CleanNamesAreKept(name: string)
    requires forall i :: 0 <= i < |name| ==> !Forbidden(name[i])
    requires name != "" ==> !Blank(name[0]) && !Blank(name[|name| - 1])
    ensures Requested(name) == name
  {
    assert Trim(name) == name;
  }

  lemma RepairIsFinal(input: string)
    ensures Requested(Requested(input)) == Requested(input)
  {
    hide Trim;
    CleanNamesAreKept(Requested(input));
  }

  // ----- The drive

  class VirtualDrive {
    var nodes: seq<Node>
    var currentFolder: string
    var selected: Option<string>

    constructor (nodes: seq<Node>)
      ensures this.nodes == nodes && currentFolder == "root" && selected == None
    {
      this.nodes, currentFolder, selected := nodes, "root", None;
    }

    method UniqueName(parent: Option<string>, requested: string, ignored: Option<string>) returns (name: string)
      ensures IsUniqueName(Siblings(nodes, parent, ignored), requested, name)
    {
      hide Siblings, Lower, Candidate;
      var siblings := Siblings(nodes, parent, ignored);
      if Lower(requested) !in siblings {
        return requested;
      }
      var index := 2;
      TakenNumbersAreFew(requested, siblings, index);
      while Lower(Candidate(requested, index)) in siblings
        invariant index >= 2 && forall i :: 2 <= i < index ==> Lower(Candidate(requested, i)) in siblings
        decreases |siblings| + 2 - index
      {
        index := index + 1;
        TakenNumbersAreFew(requested, siblings, index);
      }
      assert IsFirstFree(siblings, requested, index);
      return Candidate(requested, index);
    }

    /** nodeById. */
    method Find(id: Option<string>) returns (index: int)
      ensures -1 <= index < |nodes|
      ensures index >= 0 ==> Some(nodes[index].id) == id && forall i :: 0 <= i < index ==> Some(nodes[i].id) != id
      ensures index < 0 ==> forall i :: 0 <= i < |nodes| ==> Some(nodes[i].id) != id
    {
      index := 0;
      while index < |nodes|
        invariant 0 <= index <= |nodes| && forall i :: 0 <= i < index ==> Some(nodes[i].id) != id
      {
        if Some(nodes[index].id) == id {
          return;
        }
        index := index + 1;
      }
      index := -1;
    }

    /** The fixpoint loop: passes over the nodes until one changes nothing. */
    method Subtree(top: string) returns (ids: set<string>)
      ensures IsSubtree(nodes, top, ids)
    {
      hide HangsBelow;
      ids := {top};
      HangsFromItself(nodes, top);
      var changed := true;
      while changed
        invariant top in ids && ids <= Ids(nodes) + {top}
        invariant AllHang(nodes, top, ids)
        invariant !changed ==> ClosedBelow(nodes, ids)
        decreases |Ids(nodes) + {top}| - |ids|, changed
      {
        ghost var before := ids;
        changed, ids := Pass(top, ids);
        if changed {
          ProperSubsetIsSmaller(before, ids);
        }
        SubsetIsNoLarger(ids, Ids(nodes) + {top});
      }
      forall id | Hangs(nodes, id, top) ensures id in ids {
        var steps: nat :| HangsBelow(nodes, id, top, steps);
        ClosedHoldsDescendants(nodes, ids, top, id, steps);
      }
    }

    /** One pass over the nodes. */
    method Pass(top: string, start: set<string>) returns (changed: bool, ids: set<string>)
      requires top in start && start <= Ids(nodes) + {top} && AllHang(nodes, top, start)
      ensures start <= ids <= Ids(nodes) + {top} && AllHang(nodes, top, ids)
      ensures changed <==> ids != start
      ensures !changed ==> ClosedBelow(nodes, ids)
    {
      hide HangsBelow;
      changed, ids := false, start;
      for i := 0 to |nodes|
        invariant start <= ids <= Ids(nodes) + {top} && AllHang(nodes, top, ids)
        invariant changed <==> ids != start
        invariant !changed ==> ClosedUpTo(nodes, ids, i)
      {
        var item := nodes[i];
        if item.parent.Some? && item.parent.value != "" && item.parent.value in ids && item.id !in ids {
          ChildHangs(nodes, top, ids, i);
          ids := ids + {item.id};
          changed := true;
        }
      }
    }

    /** The folder prompt: a new folder under a free name, unless the browser cannot store it. */
    method CreateFolder(input: string, freshId: string, now: nat, stored: bool)
      modifies this`nodes
      ensures Requested(input) == "" || !stored ==> nodes == old(nodes)
      ensures Requested(input) != "" && stored ==>
                exists name :: Created(old(nodes), nodes, currentFolder, Requested(input), name, freshId, now)
      ensures old(ValidDrive(nodes)) && currentFolder in old(Ids(nodes)) && freshId != ""
              && freshId !in old(Ids(nodes)) ==>
                ValidDrive(nodes)
    {
      hide Siblings, Requested, Ids, ValidDrive, IsUniqueName;
      var requested := Requested(input);
      if requested == "" {
        return;
      }
      var snapshot := nodes;
      var name := UniqueName(Some(currentFolder), requested, None);
      nodes := nodes + [Node(freshId, Some(currentFolder), name, now, "")];
      assert Created(snapshot, nodes, currentFolder, requested, name, freshId, now);
      if !stored {
        nodes := snapshot;
      } else if ValidDrive(snapshot) && currentFolder in Ids(snapshot) && freshId != "" && freshId !in Ids(snapshot) {
        UniqueNameIsFree(Siblings(snapshot, Some(currentFolder), None), requested, name);
        CreatingKeepsTheDrive(snapshot, Node(freshId, Some(currentFolder), name, now, ""));
      }
    }

    /** The rename prompt. */
    method RenameSelected(input: string, now: nat, stored: bool)
      modifies this`nodes
      ensures Requested(input) == "" || !stored ==> nodes == old(nodes)
      ensures (forall i :: 0 <= i < |old(nodes)| ==> Some(old(nodes)[i].id) != selected) ==> nodes == old(nodes)
      ensures nodes == old(nodes) || exists k, name ::
                Renamed(old(nodes), nodes, k, name, selected, Requested(input), now)
      ensures old(ValidDrive(nodes)) ==> ValidDrive(nodes)
    {
      hide Siblings, Requested, Ids, ValidDrive, IsUniqueName;
      var requested := Requested(input);
      if requested == "" {
        return;
      }
      var snapshot := nodes;
      var k := Find(selected);
      if k < 0 {
        return;
      }
      var name := UniqueName(nodes[k].parent, requested, Some(nodes[k].id));
      nodes := nodes[k := nodes[k].(name := name, modified := now)];
      assert Renamed(snapshot, nodes, k, name, selected, requested, now);
      if !stored {
        nodes := snapshot;
      } else if ValidDrive(snapshot) {
        UniqueNameIsFree(Siblings(snapshot, snapshot[k].parent, Some(snapshot[k].id)), requested, name);
        RenamingKeepsTheDrive(snapshot, k, name, now);
      }
    }

    /** Deletes the selected node with everything below it, unless the browser cannot store the change. */
    method DeleteSelected(stored: bool)
      modifies this`nodes, this`selected
      ensures !stored ==> nodes == old(nodes)
      ensures (forall i :: 0 <= i < |old(nodes)| ==> Some(old(nodes)[i].id) != old(selected))
              || old(selected) == Some("root") ==>
                nodes == old(nodes) && selected == old(selected)
      ensures nodes == old(nodes) || exists ids :: Deleted(old(nodes), nodes, old(selected), ids)
      ensures stored && old(selected) != Some("root")
              && (exists i :: 0 <= i < |old(nodes)| && Some(old(nodes)[i].id) == old(selected)) ==>
                selected == None && exists ids :: Deleted(old(nodes), nodes, old(selected), ids)
      ensures old(ValidDrive(nodes)) ==> ValidDrive(nodes)
    {
      hide ValidDrive, IsSubtree;
      var k := Find(selected);
      if k < 0 || nodes[k].id == "root" {
        return;
      }
      var snapshot := nodes;
      var deleted := Subtree(nodes[k].id);
      nodes := Without(nodes, deleted);
      selected := None;
      assert Deleted(snapshot, nodes, Some(snapshot[k].id), deleted);
      if !stored {
        nodes := snapshot;
      } else if ValidDrive(snapshot) {
        DeletingASubtreeKeepsTheDrive(snapshot, snapshot[k].id, deleted);
      }
    }
  }

  /** One new folder at the end, with the requested name or the first free numbered one. */
  ghost predicate Created(before: seq<Node>, after: seq<Node>, folder: string, requested: string, name: string,
                          freshId: string, now: nat) {
    && IsUniqueName(Siblings(before, Some(folder), None), requested, name)
    && after == before + [Node(freshId, Some(folder), name, now, "")]
  }

  /** The selected node, and no other, has the requested name or the first free numbered one. */
  ghost predicate Renamed(before: seq<Node>, after: seq<Node>, k: int, name: string, selected: Option<string>,
                          requested: string, now: nat)
  {
    && 0 <= k < |before| && Some(before[k].id) == selected
    && IsUniqueName(Siblings(before, before[k].parent, Some(before[k].id)), requested, name)
    && after == before[k := before[k].(name := name, modified := now)]
  }

  /** Exactly the selected node and what hangs below it are gone; the others keep their order. */
  ghost predicate Deleted(before: seq<Node>, after: seq<Node>, selected: Option<string>, ids: set<string>) {
    && selected.Some? && IsSubtree(before, selected.value, ids)
    && after == Without(before, ids)
  }
}
