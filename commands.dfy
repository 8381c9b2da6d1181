/**
 * Reversible document edits and the bounded linear undo/redo history.
 *
 * A command is data: the item it creates and the snapshot of the collection
 * it was built against. Executing or undoing it computes a new collection
 * from that snapshot; the document it acts on is passed in explicitly instead
 * of being reached through a captured setter.
 */
module Commands {
  import opened Wrappers
  import opened Geometry
  import opened Lists

  /** Largest number of commands the history retains. */
  const MaxSize: nat := 100

  /** The three collections a command may replace. */
  datatype Document = Document(points: seq<Point>, lines: seq<Line>, arcs: seq<Arc>)

  function PointId(p: Point): string { p.id }
  function LineId(l: Line): string { l.id }
  function ArcId(a: Arc): string { a.id }

  /**
   * A create command: its own id and timestamp (given, not generated), the item
   * it creates and the collection it was constructed against.
   */
  datatype Command =
    | CreatePoint(id: string, timestamp: int, point: Point, points: seq<Point>)
    | CreateLine(id: string, timestamp: int, line: Line, lines: seq<Line>)
    | CreateArc(id: string, timestamp: int, arc: Arc, arcs: seq<Arc>)
  {
    /** The command's type tag. */
    function Type(): string
    {
      match this
      case CreatePoint(_, _, _, _) => "create-point"
      case CreateLine(_, _, _, _) => "create-line"
      case CreateArc(_, _, _, _) => "create-arc"
    }

    /** The human-readable description fixed at construction. */
    function Description(): string
    {
      match this
      case CreatePoint(_, _, p, _) => "Create point " + p.name
      case CreateLine(_, _, l, _) => "Create line from " + l.startPoint.name + " to " + l.endPoint.name
      case CreateArc(_, _, a, _) => "Create arc centered at " + a.centerPoint.name
    }

    /** The id of the created item. */
    function ItemId(): string
    {
      match this
      case CreatePoint(_, _, p, _) => p.id
      case CreateLine(_, _, l, _) => l.id
      case CreateArc(_, _, a, _) => a.id
    }

    /** The snapshot does not yet hold an item with the created item's id. */
    predicate FreshItem()
    {
      match this
      case CreatePoint(_, _, p, ps) => forall q :: q in ps ==> q.id != p.id
      case CreateLine(_, _, l, ls) => forall m :: m in ls ==> m.id != l.id
      case CreateArc(_, _, a, as_) => forall b :: b in as_ ==> b.id != a.id
    }

    /** The document's collection of this command's kind is the snapshot. */
    predicate Captured(doc: Document)
    {
      match this
      case CreatePoint(_, _, _, ps) => doc.points == ps
      case CreateLine(_, _, _, ls) => doc.lines == ls
      case CreateArc(_, _, _, as_) => doc.arcs == as_
    }

    /** `execute`: the collection becomes the snapshot plus the item; the others are untouched. */
    function Execute(doc: Document): (d: Document)
      ensures CreatePoint? ==> d == doc.(points := points + [point])
      ensures CreateLine? ==> d == doc.(lines := lines + [line])
      ensures CreateArc? ==> d == doc.(arcs := arcs + [arc])
    {
      match this
      case CreatePoint(_, _, p, ps) => doc.(points := ps + [p])
      case CreateLine(_, _, l, ls) => doc.(lines := ls + [l])
      case CreateArc(_, _, a, as_) => doc.(arcs := as_ + [a])
    }

    /**
     * `undo`: the collection becomes the snapshot without every element carrying
     * the item's id; the others are untouched.
     */
    function Undo(doc: Document): (d: Document)
      ensures CreatePoint? ==>
                && d.lines == doc.lines && d.arcs == doc.arcs
                && forall q :: q in d.points <==> q in points && q.id != point.id
      ensures CreateLine? ==>
                && d.points == doc.points && d.arcs == doc.arcs
                && forall m :: m in d.lines <==> m in lines && m.id != line.id
      ensures CreateArc? ==>
                && d.points == doc.points && d.lines == doc.lines
                && forall b :: b in d.arcs <==> b in arcs && b.id != arc.id
      ensures FreshItem() ==> Captured(d) && d == Restored(doc)
    {
      match this
      case CreatePoint(_, _, p, ps) => doc.(points := RemoveId(ps, p.id, PointId))
      case CreateLine(_, _, l, ls) => doc.(lines := RemoveId(ls, l.id, LineId))
      case CreateArc(_, _, a, as_) => doc.(arcs := RemoveId(as_, a.id, ArcId))
    }

    /** `doc` with this command's collection reset to the snapshot. */
    function Restored(doc: Document): (d: Document)
      ensures Captured(d)
    {
      match this
      case CreatePoint(_, _, _, ps) => doc.(points := ps)
      case CreateLine(_, _, _, ls) => doc.(lines := ls)
      case CreateArc(_, _, _, as_) => doc.(arcs := as_)
    }

    /** `redo` re-runs `execute`. */
    function Redo(doc: Document): (d: Document)
      ensures d == Execute(doc)
    {
      Execute(doc)
    }
  }

  /**
   * Undo exactly inverts execute on a document whose collection is the snapshot
   * the command was built against, when the item's id is new to it.
   */
  lemma UndoInvertsExecute(c: Command, doc: Document)
    requires c.Captured(doc) && c.FreshItem()
    ensures c.Undo(c.Execute(doc)) == doc
  {
    match c
    case CreatePoint(_, _, p, ps) => RemoveAppended(ps, p, PointId);
    case CreateLine(_, _, l, ls) => RemoveAppended(ls, l, LineId);
    case CreateArc(_, _, a, as_) => RemoveAppended(as_, a, ArcId);
  }

  /**
   * The history as a value: the executed commands in order and the cursor of
   * the most recently applied one (-1 when nothing is applied).
   */
  datatype History = History(commands: seq<Command>, currentIndex: int)
  {
    /** The cursor lies in [-1, |commands| - 1] and at most MaxSize commands are retained. */
    ghost predicate Valid()
    {
      -1 <= currentIndex < |commands| <= MaxSize
    }

    /** The commands whose effect is in the document, oldest first. */
    function Applied(): seq<Command>
      requires Valid()
    {
      commands[..currentIndex + 1]
    }

    /** The redo buffer: undone commands that redo would re-apply, next first. */
    function Pending(): seq<Command>
      requires Valid()
    {
      commands[currentIndex + 1..]
    }

    /** `executeCommand`: drop the redo buffer, append, advance, evict the oldest on overflow. */
    function AfterExecute(c: Command): (h: History)
      requires Valid()
      ensures h.Valid()
      ensures 0 <= h.currentIndex == |h.commands| - 1 && h.commands[h.currentIndex] == c
      ensures h.Pending() == []
      ensures |Applied()| < MaxSize ==> h.Applied() == Applied() + [c]
      ensures |Applied()| == MaxSize ==> h.Applied() == Applied()[1..] + [c]
    {
      var kept := commands[..currentIndex + 1] + [c];
      if |kept| > MaxSize then History(kept[1..], currentIndex) else History(kept, currentIndex + 1)
    }

    /** `undo`: move the last applied command to the front of the redo buffer, if there is one. */
    function AfterUndo(): (h: History)
      requires Valid()
      ensures h.Valid() && h.commands == commands
      ensures Applied() != [] ==>
                && h.Applied() == Applied()[..|Applied()| - 1]
                && h.Pending() == [Applied()[|Applied()| - 1]] + Pending()
      ensures Applied() == [] ==> h == this
    {
      if currentIndex >= 0 then History(commands, currentIndex - 1) else this
    }

    /** `redo`: move the first command of the redo buffer to the applied ones, if there is one. */
    function AfterRedo(): (h: History)
      requires Valid()
      ensures h.Valid() && h.commands == commands
      ensures Pending() != [] ==>
                && h.Applied() == Applied() + [Pending()[0]]
                && h.Pending() == Pending()[1..]
      ensures Pending() == [] ==> h == this
    {
      if currentIndex < |commands| - 1 then History(commands, currentIndex + 1) else this
    }

    /** What `undo` does to the document: the last applied command's undo, or nothing. */
    function UndoEffect(doc: Document): (d: Document)
      requires Valid()
      ensures Applied() != [] ==> d == Applied()[|Applied()| - 1].Undo(doc)
      ensures Applied() == [] ==> d == doc
    {
      if currentIndex >= 0 then commands[currentIndex].Undo(doc) else doc
    }

    /** What `redo` does to the document: the next pending command's redo, or nothing. */
    function RedoEffect(doc: Document): (d: Document)
      requires Valid()
      ensures Pending() != [] ==> d == Pending()[0].Redo(doc)
      ensures Pending() == [] ==> d == doc
    {
      if currentIndex < |commands| - 1 then commands[currentIndex + 1].Redo(doc) else doc
    }
  }

  /** The history of a fresh or cleared stack. */
  const Empty: History := History([], -1)

  /** Undo followed by redo restores the history. */
  lemma UndoThenRedo(h: History)
    requires h.Valid() && h.Applied() != []
    ensures h.AfterUndo().AfterRedo() == h
  {
  }

  /** Redo followed by undo restores the history. */
  lemma RedoThenUndo(h: History)
    requires h.Valid() && h.Pending() != []
    ensures h.AfterRedo().AfterUndo() == h
  {
  }

  /** Execute A, execute B, undo, execute C: B is discarded and C is applied after A. */
  lemma ExecuteAfterUndoDropsRedo(a: Command, b: Command, c: Command)
    ensures Empty.AfterExecute(a).AfterExecute(b).AfterUndo().AfterExecute(c) == History([a, c], 1)
  {
    var h2 := Empty.AfterExecute(a).AfterExecute(b);
    assert h2 == History([a, b], 1);
    assert h2.AfterUndo() == History([a, b], 0);
  }

  /**
   * The same scenario on a document: after executing A and B, undoing B, executing C
   * and undoing twice, the document is as it was before A.
   */
  lemma ScenarioRestoresDocument(a: Command, b: Command, c: Command, doc: Document)
    requires a.Captured(doc) && a.FreshItem()
    requires b.Captured(a.Execute(doc)) && b.FreshItem()
    requires c.Captured(a.Execute(doc)) && c.FreshItem()
    ensures var h2 := Empty.AfterExecute(a).AfterExecute(b);
            var d3 := h2.UndoEffect(b.Execute(a.Execute(doc)));
            var h4 := h2.AfterUndo().AfterExecute(c);
            var d5 := h4.UndoEffect(c.Execute(d3));
            && h4 == History([a, c], 1)
            && h4.Pending() == []
            && h4.AfterUndo().UndoEffect(d5) == doc
  {
    var d1 := a.Execute(doc);
    ExecuteAfterUndoDropsRedo(a, b, c);
    UndoInvertsExecute(a, doc);
    UndoInvertsExecute(b, d1);
    UndoInvertsExecute(c, d1);
  }

  /** Executing `cs` in order, starting from `h`. */
  function ExecuteAll(h: History, cs: seq<Command>): (r: History)
    requires h.Valid()
    ensures r.Valid()
  {
    if cs == [] then h else ExecuteAll(h, cs[..|cs| - 1]).AfterExecute(cs[|cs| - 1])
  }

  /** The last MaxSize elements of `cs` (all of them when there are fewer). */
  function Window(cs: seq<Command>): (w: seq<Command>)
    ensures |w| == if |cs| <= MaxSize then |cs| else MaxSize
  {
    if |cs| <= MaxSize then cs else cs[|cs| - MaxSize..]
  }

  /**
   * Executing any sequence of commands on a fresh stack keeps exactly the
   * newest MaxSize of them, all applied.
   */
  lemma {:induction false} ExecuteAllFromEmpty(cs: seq<Command>)
    ensures ExecuteAll(Empty, cs) == History(Window(cs), |Window(cs)| - 1)
  {
    if cs != [] {
      var init := cs[..|cs| - 1];
      ExecuteAllFromEmpty(init);
      var w := Window(init);
      assert w + [cs[|cs| - 1]] == if |init| < MaxSize then cs else cs[|cs| - MaxSize - 1..];
    }
  }

  /** Pushing MaxSize + 1 commands leaves exactly MaxSize, without the oldest one. */
  lemma OverflowEvictsOldest(cs: seq<Command>)
    requires |cs| == MaxSize + 1
    ensures ExecuteAll(Empty, cs).commands == cs[1..]
    ensures |ExecuteAll(Empty, cs).Applied()| == MaxSize
  {
    ExecuteAllFromEmpty(cs);
  }

  /** The undo/redo history: the commands and the cursor, updated in place. */
  class CommandStack {
    var commands: seq<Command>
    var currentIndex: int

    /** The history held by this stack. */
    function State(): History
      reads this
    {
      History(commands, currentIndex)
    }

    ghost predicate Valid()
      reads this
    {
      State().Valid()
    }

    constructor ()
      ensures Valid() && State() == Empty
    {
      commands := [];
      currentIndex := -1;
    }

    /** Record `c` as the newest applied command and execute it on `doc`. */
    method ExecuteCommand(c: Command, doc: Document) returns (doc': Document)
      requires Valid()
      modifies this
      ensures Valid() && State() == old(State()).AfterExecute(c)
      ensures doc' == c.Execute(doc)
    {
      commands := commands[..currentIndex + 1];
      commands := commands + [c];
      currentIndex := currentIndex + 1;
      doc' := c.Execute(doc);
      if |commands| > MaxSize {
        commands := commands[1..];
        currentIndex := currentIndex - 1;
      }
    }

    /** Some command is applied. */
    method CanUndo() returns (b: bool)
      requires Valid()
      ensures b <==> State().Applied() != []
    {
      b := currentIndex >= 0;
    }

    /** Some command waits in the redo buffer. */
    method CanRedo() returns (b: bool)
      requires Valid()
      ensures b <==> State().Pending() != []
    {
      b := currentIndex < |commands| - 1;
    }

    /** Undo the last applied command on `doc`; nothing happens when none is applied. */
    method Undo(doc: Document) returns (doc': Document)
      requires Valid()
      modifies this
      ensures Valid() && State() == old(State()).AfterUndo()
      ensures doc' == old(State()).UndoEffect(doc)
    {
      doc' := doc;
      var can := CanUndo();
      if can {
        doc' := commands[currentIndex].Undo(doc);
        currentIndex := currentIndex - 1;
      }
    }

    /** Redo the next pending command on `doc`; nothing happens when none is pending. */
    method Redo(doc: Document) returns (doc': Document)
      requires Valid()
      modifies this
      ensures Valid() && State() == old(State()).AfterRedo()
      ensures doc' == old(State()).RedoEffect(doc)
    {
      doc' := doc;
      var can := CanRedo();
      if can {
        currentIndex := currentIndex + 1;
        doc' := commands[currentIndex].Redo(doc);
      }
    }

    /** The description of the command undo would revert, if any. */
    method GetUndoDescription() returns (r: Option<string>)
      requires Valid()
      ensures r.Some? <==> State().Applied() != []
      ensures r.Some? ==> r.value == State().Applied()[|State().Applied()| - 1].Description()
    {
      var can := CanUndo();
      r := if can then Some(commands[currentIndex].Description()) else None;
    }

    /** The description of the command redo would re-apply, if any. */
    method GetRedoDescription() returns (r: Option<string>)
      requires Valid()
      ensures r.Some? <==> State().Pending() != []
      ensures r.Some? ==> r.value == State().Pending()[0].Description()
    {
      var can := CanRedo();
      r := if can then Some(commands[currentIndex + 1].Description()) else None;
    }

    /** Forget the whole history. */
    method Clear()
      modifies this
      ensures Valid() && State() == Empty
    {
      commands := [];
      currentIndex := -1;
    }

    /** A copy of the retained commands, oldest first. */
    method GetCommands() returns (cs: seq<Command>)
      requires Valid()
      ensures cs == State().Applied() + State().Pending()
    {
      cs := commands;
    }

    /** The cursor: the number of applied commands minus one. */
    method GetCurrentIndex() returns (i: int)
      requires Valid()
      ensures i == |State().Applied()| - 1
    {
      i := currentIndex;
    }
  }
}
