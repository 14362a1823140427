/**
 The virtual drive stays one tree under its root folder, whatever is created,
 renamed and deleted (WebAssembly/harness/launcher-desktop-apps.js:406-460).
 */
module DriveTree {
  import opened Common
  import opened Drive

  /** The root has no parent, and every node hangs below it, so no folders form a ring of their own. */
  ghost predicate Rooted(nodes: seq<Node>) {
    && (exists i :: 0 <= i < |nodes| && nodes[i].id == "root" && nodes[i].parent == None)
    && forall i :: 0 <= i < |nodes| ==> Hangs(nodes, nodes[i].id, "root")
  }

  ghost predicate IsTree(nodes: seq<Node>) {
    ValidDrive(nodes) && Rooted(nodes)
  }

  // ----- Creating

  lemma {:induction false} HangsInMore(nodes: seq<Node>, node: Node, id: string, top: string, steps: nat)
    requires HangsBelow(nodes, id, top, steps)
    ensures HangsBelow(nodes + [node], id, top, steps)
    decreases steps
  {
    if id != top {
      var i :| 0 <= i < |nodes| && nodes[i].id == id && nodes[i].parent.Some? && nodes[i].parent.value != ""
               && HangsBelow(nodes, nodes[i].parent.value, top, steps - 1);
      HangsInMore(nodes, node, nodes[i].parent.value, top, steps - 1);
      assert (nodes + [node])[i] == nodes[i];
    }
  }

  lemma CreatingKeepsRooted(nodes: seq<Node>, node: Node)
    requires Rooted(nodes) && node.parent.Some? && node.parent.value != "" && node.parent.value in Ids(nodes)
    ensures Rooted(nodes + [node])
  {
    hide HangsBelow;
    var more := nodes + [node];
    var r :| 0 <= r < |nodes| && nodes[r].id == "root" && nodes[r].parent == None;
    assert more[r] == nodes[r];
    forall i | 0 <= i < |nodes| ensures Hangs(more, nodes[i].id, "root") {
      var steps: nat :| HangsBelow(nodes, nodes[i].id, "root", steps);
      HangsInMore(nodes, node, nodes[i].id, "root", steps);
    }
    var p :| 0 <= p < |nodes| && nodes[p].id == node.parent.value;
    NewNodeHangs(nodes, node);
    forall i | 0 <= i < |more| ensures Hangs(more, more[i].id, "root") {
      assert i < |nodes| ==> more[i] == nodes[i];
    }
  }

  lemma NewNodeHangs(nodes: seq<Node>, node: Node)
    requires node.parent.Some? && node.parent.value != "" && Hangs(nodes + [node], node.parent.value, "root")
    ensures Hangs(nodes + [node], node.id, "root")
  {
    var more := nodes + [node];
    var steps: nat :| HangsBelow(more, node.parent.value, "root", steps);
    assert more[|nodes|] == node;
    assert HangsBelow(more, node.id, "root", steps + 1);
  }

  // ----- Renaming

  /** Only names and dates differ. */
  ghost predicate SameShape(nodes: seq<Node>, others: seq<Node>) {
    |others| == |nodes|
    && forall i :: 0 <= i < |nodes| ==> others[i].id == nodes[i].id && others[i].parent == nodes[i].parent
  }

  lemma {:induction false} HangsAlike(nodes: seq<Node>, others: seq<Node>, id: string, top: string, steps: nat)
    requires SameShape(nodes, others) && HangsBelow(nodes, id, top, steps)
    ensures HangsBelow(others, id, top, steps)
    decreases steps
  {
    if id != top {
      var i :| 0 <= i < |nodes| && nodes[i].id == id && nodes[i].parent.Some? && nodes[i].parent.value != ""
               && HangsBelow(nodes, nodes[i].parent.value, top, steps - 1);
      HangsAlike(nodes, others, nodes[i].parent.value, top, steps - 1);
      assert others[i].id == id;
    }
  }

  lemma SameShapeKeepsRooted(nodes: seq<Node>, others: seq<Node>)
    requires Rooted(nodes) && SameShape(nodes, others)
    ensures Rooted(others)
  {
    hide HangsBelow;
    var r :| 0 <= r < |nodes| && nodes[r].id == "root" && nodes[r].parent == None;
    assert others[r].id == "root";
    forall i | 0 <= i < |others| ensures Hangs(others, others[i].id, "root") {
      assert Hangs(nodes, nodes[i].id, "root");
      var steps: nat :| HangsBelow(nodes, nodes[i].id, "root", steps);
      HangsAlike(nodes, others, nodes[i].id, "root", steps);
    }
  }

  // ----- Deleting

  /** The way up from a node outside a subtree never enters it, so it survives the deletion. */
  lemma {:induction false} HangsWithout(nodes: seq<Node>, deleted: string, ids: set<string>, id: string, steps: nat)
    requires IsSubtree(nodes, deleted, ids) && id !in ids && HangsBelow(nodes, id, "root", steps)
    ensures HangsBelow(Without(nodes, ids), id, "root", steps)
    decreases steps
  {
    hide Hangs;
    if id != "root" {
      var i :| 0 <= i < |nodes| && nodes[i].id == id && nodes[i].parent.Some? && nodes[i].parent.value != ""
               && HangsBelow(nodes, nodes[i].parent.value, "root", steps - 1);
      SubtreeIsClosed(nodes, deleted, ids);
      assert !ChildOf(nodes[i], ids);
      HangsWithout(nodes, deleted, ids, nodes[i].parent.value, steps - 1);
      WithoutIsTheRest(nodes, ids);
      assert nodes[i] in nodes && nodes[i] in Without(nodes, ids);
      var k :| 0 <= k < |Without(nodes, ids)| && Without(nodes, ids)[k] == nodes[i];
    }
  }

  lemma RootHangsNowhere(nodes: seq<Node>, top: string, r: nat, steps: nat)
    requires DistinctIds(nodes) && r < |nodes| && nodes[r].id == "root" && nodes[r].parent == None && top != "root"
    ensures !HangsBelow(nodes, "root", top, steps)
  {
  }

  lemma DeletingKeepsRooted(nodes: seq<Node>, top: string, ids: set<string>)
    requires IsTree(nodes) && IsSubtree(nodes, top, ids) && top != "root"
    ensures Rooted(Without(nodes, ids))
  {
    hide HangsBelow;
    var rest := Without(nodes, ids);
    WithoutIsTheRest(nodes, ids);
    var r :| 0 <= r < |nodes| && nodes[r].id == "root" && nodes[r].parent == None;
    RootStays(nodes, top, ids, r);
    forall i | 0 <= i < |rest| ensures Hangs(rest, rest[i].id, "root") {
      assert rest[i] in rest;
      var k :| 0 <= k < |nodes| && nodes[k] == rest[i];
      assert Hangs(nodes, nodes[k].id, "root");
      var steps: nat :| HangsBelow(nodes, nodes[k].id, "root", steps);
      HangsWithout(nodes, top, ids, nodes[k].id, steps);
    }
  }

  lemma RootStays(nodes: seq<Node>, top: string, ids: set<string>, r: nat)
    requires DistinctIds(nodes) && IsSubtree(nodes, top, ids) && top != "root"
    requires r < |nodes| && nodes[r].id == "root" && nodes[r].parent == None
    ensures exists i :: 0 <= i < |Without(nodes, ids)| && Without(nodes, ids)[i] == nodes[r]
  {
    hide HangsBelow;
    WithoutIsTheRest(nodes, ids);
    forall steps: nat ensures !HangsBelow(nodes, "root", top, steps) {
      RootHangsNowhere(nodes, top, r, steps);
    }
    assert nodes[r] in nodes && nodes[r] in Without(nodes, ids);
  }

  // ----- Any sequence of edits

  /** What the prompts and the delete button can do to the drive, as their contracts say. */
  datatype Edit =
    | Nothing
    | Create(folder: string, requested: string, name: string, freshId: string, now: nat)
    | Rename(k: nat, name: string, selected: Option<string>, requested: string, now: nat)
    | Delete(top: string, ids: set<string>)

  ghost predicate IsEdit(before: seq<Node>, after: seq<Node>, edit: Edit) {
    match edit
    case Nothing => after == before
    case Create(folder, requested, name, freshId, now) =>
      folder in Ids(before) && freshId != "" && freshId !in Ids(before)
      && Created(before, after, folder, requested, name, freshId, now)
    case Rename(k, name, selected, requested, now) => Renamed(before, after, k, name, selected, requested, now)
    case Delete(top, ids) => top != "root" && Deleted(before, after, Some(top), ids)
  }

  lemma EditKeepsTheTree(before: seq<Node>, after: seq<Node>, edit: Edit)
    requires IsTree(before) && IsEdit(before, after, edit)
    ensures IsTree(after)
  {
    hide Siblings, Hangs, DistinctIds, NoOrphans, SiblingsDiffer, IsUniqueName, Rooted;
    match edit
    case Nothing =>
    case Create(folder, requested, name, freshId, now) =>
      CreateKeepsTheTree(before, folder, requested, name, freshId, now);
    case Rename(k, name, selected, requested, now) => RenameKeepsTheTree(before, k, name, selected, requested, now);
    case Delete(top, ids) =>
      DeletingASubtreeKeepsTheDrive(before, top, ids);
      DeletingKeepsRooted(before, top, ids);
  }

  lemma CreateKeepsTheTree(before: seq<Node>, folder: string, requested: string, name: string, freshId: string,
                           now: nat)
    requires IsTree(before) && folder in Ids(before) && freshId != "" && freshId !in Ids(before)
    requires IsUniqueName(Siblings(before, Some(folder), None), requested, name)
    ensures IsTree(before + [Node(freshId, Some(folder), name, now, "")])
  {
    hide Siblings, Hangs, NoOrphans, SiblingsDiffer, IsUniqueName, Rooted;
    UniqueNameIsFree(Siblings(before, Some(folder), None), requested, name);
    CreatingKeepsTheDrive(before, Node(freshId, Some(folder), name, now, ""));
    CreatingKeepsRooted(before, Node(freshId, Some(folder), name, now, ""));
  }

  lemma RenameKeepsTheTree(before: seq<Node>, k: nat, name: string, selected: Option<string>, requested: string,
                           now: nat)
    requires IsTree(before) && k < |before|
    requires IsUniqueName(Siblings(before, before[k].parent, Some(before[k].id)), requested, name)
    ensures IsTree(before[k := before[k].(name := name, modified := now)])
  {
    hide Siblings, Hangs, DistinctIds, NoOrphans, SiblingsDiffer, IsUniqueName, Rooted;
    UniqueNameIsFree(Siblings(before, before[k].parent, Some(before[k].id)), requested, name);
    RenamingKeepsTheDrive(before, k, name, now);
    SameShapeKeepsRooted(before, before[k := before[k].(name := name, modified := now)]);
  }

  /** However often the drive is edited, it is a valid drive and one tree under the root. */
  lemma {:induction false} TheDriveStaysATree(drives: seq<seq<Node>>, edits: seq<Edit>, k: nat)
    requires |drives| == |edits| + 1 && k <= |edits| && IsTree(drives[0])
    requires forall i :: 0 <= i < |edits| ==> IsEdit(drives[i], drives[i + 1], edits[i])
    ensures IsTree(drives[k])
  {
    hide IsTree, IsEdit;
    if k > 0 {
      TheDriveStaysATree(drives, edits, k - 1);
      EditKeepsTheTree(drives[k - 1], drives[k], edits[k - 1]);
    }
  }

  // ----- The drive a new visitor gets

  function SeededDrive(now: nat): seq<Node> {
    [Node("root", None, "New Shoes Drive", now, ""),
     Node("saves", Some("root"), "Game Saves", now, ""),
     Node("replays", Some("root"), "Replays", now, ""),
     Node("notes", Some("root"), "Notes", now, ""),
     Node("screens", Some("root"), "Screenshots", now, ""),
     Node("note-1", Some("notes"), "Welcome to Project New Shoes.txt", now, ""),
     Node("note-2", Some("notes"), "Battle plan.txt", now, "")]
  }

  lemma ChildHangsToo(nodes: seq<Node>, i: nat)
    requires i < |nodes| && nodes[i].parent.Some? && nodes[i].parent.value != ""
    requires Hangs(nodes, nodes[i].parent.value, "root")
    ensures Hangs(nodes, nodes[i].id, "root")
  {
    var steps: nat :| HangsBelow(nodes, nodes[i].parent.value, "root", steps);
    assert HangsBelow(nodes, nodes[i].id, "root", steps + 1);
  }

  lemma SeedIsRooted(now: nat)
    ensures Rooted(SeededDrive(now))
  {
    hide Hangs;
    var nodes := SeededDrive(now);
    HangsFromItself(nodes, "root");
    assert nodes[0].id == "root" && nodes[0].parent == None && nodes[3].parent == Some("root");
    ChildHangsToo(nodes, 3);
    forall i | 0 <= i < |nodes| ensures Hangs(nodes, nodes[i].id, "root") {
      assert i == 0 || nodes[i].parent == Some(if i < 5 then "root" else "notes");
      if i > 0 {
        ChildHangsToo(nodes, i);
      }
    }
  }

  lemma SeedIsValid(now: nat)
    ensures ValidDrive(SeededDrive(now))
  {
    hide Lower;
    var nodes := SeededDrive(now);
    assert nodes[0].id == "root" && nodes[3].id == "notes";
    HasItsId(nodes, 0);
    HasItsId(nodes, 3);
    assert |Lower(nodes[1].name)| == 10 && |Lower(nodes[2].name)| == 7 && |Lower(nodes[3].name)| == 5;
    assert |Lower(nodes[4].name)| == 11 && |Lower(nodes[5].name)| == 32 && |Lower(nodes[6].name)| == 15;
  }

  /** So no run of edits from the seeded drive loses a node from the tree or closes a ring. */
  lemma SeedIsATree(now: nat)
    ensures IsTree(SeededDrive(now))
  {
    SeedIsValid(now);
    SeedIsRooted(now);
  }
}
