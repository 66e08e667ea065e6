/**
 * The cell registry: one ordered, replaceable list of validated cells, and
 * the two first-match queries the codec asks of it (by containment of a
 * UTM point, by designator).
 */
module Registry {
  import opened Types
  import opened Validations

  /** The registry's content: unset, or the last list accepted. */
  type Grid = Option<seq<Cell>>

  predicate WellFormedGrid(grid: Grid) {
    grid.Some? ==> |grid.value| >= 1 && forall j :: 0 <= j < |grid.value| ==> WellFormedCell(grid.value[j])
  }

  /** `Array.prototype.find`, by position: the lowest index whose element satisfies `p`. */
  function FindIndex<T>(s: seq<T>, p: T -> bool): (r: Option<nat>)
    ensures r.Some? ==> r.value < |s| && p(s[r.value])
    ensures r.Some? ==> forall j :: 0 <= j < r.value ==> !p(s[j])
    ensures r.None? <==> forall j :: 0 <= j < |s| ==> !p(s[j])
  {
    if s == [] then None
    else if p(s[0]) then Some(0)
    else match FindIndex(s[1..], p)
      case None => None
      case Some(k) => Some(k + 1)
  }

  /** The half-open containment test of a cell against a UTM point. */
  predicate ContainsPoint(c: Cell, zone: int, hemisphere: Hemisphere, easting: real, northing: real) {
    && c.hemisphere == hemisphere
    && c.zone == zone
    && c.left <= easting < c.right
    && c.bottom <= northing < c.top
  }

  /** The first registered cell containing the point; none when the registry is unset. */
  function FirstContaining(grid: Grid, zone: int, hemisphere: Hemisphere, easting: real, northing: real): (r: Option<Cell>)
    ensures r.None? <==> (grid.None? || forall j :: 0 <= j < |grid.value| ==>
      !ContainsPoint(grid.value[j], zone, hemisphere, easting, northing))
    ensures r.Some? ==> ContainsPoint(r.value, zone, hemisphere, easting, northing)
    ensures r.Some? ==> exists k :: (0 <= k < |grid.value| && grid.value[k] == r.value &&
      forall j :: 0 <= j < k ==> !ContainsPoint(grid.value[j], zone, hemisphere, easting, northing))
  {
    match grid
    case None => None
    case Some(cells) =>
      match FindIndex(cells, (c: Cell) => ContainsPoint(c, zone, hemisphere, easting, northing))
      case None => None
      case Some(k) => Some(cells[k])
  }

  /** The first registered cell whose designator is exactly `designator`. */
  function FirstWithDesignator(grid: Grid, designator: string): (r: Option<Cell>)
    ensures r.None? <==> (grid.None? || forall j :: 0 <= j < |grid.value| ==>
      grid.value[j].gridCodeZone != designator)
    ensures r.Some? ==> r.value.gridCodeZone == designator
    ensures r.Some? ==> exists k :: (0 <= k < |grid.value| && grid.value[k] == r.value &&
      forall j :: 0 <= j < k ==> grid.value[j].gridCodeZone != designator)
  {
    match grid
    case None => None
    case Some(cells) =>
      match FindIndex(cells, (c: Cell) => c.gridCodeZone == designator)
      case None => None
      case Some(k) => Some(cells[k])
  }

  /** No two registered cells share a designator (the registry itself does not enforce it). */
  predicate UniqueDesignators(grid: Grid) {
    grid.Some? ==> forall i, j :: 0 <= i < j < |grid.value| ==>
      grid.value[i].gridCodeZone != grid.value[j].gridCodeZone
  }

  /** Under unique designators, the designator lookup finds every registered cell itself. */
  lemma DesignatorFindsItsCell(grid: Grid, k: nat)
    requires UniqueDesignators(grid) && grid.Some? && k < |grid.value|
    ensures FirstWithDesignator(grid, grid.value[k].gridCodeZone) == Some(grid.value[k])
  {
    var cells := grid.value;
    var r := FirstWithDesignator(grid, cells[k].gridCodeZone);
    assert r.Some?;
    var m :| 0 <= m < |cells| && cells[m] == r.value &&
      forall j :: 0 <= j < m ==> cells[j].gridCodeZone != cells[k].gridCodeZone;
    assert !(m < k) && !(k < m);
  }

  /**
   * The process-wide registry of the source, as an explicit object.
   * `Load` is the `GridCells` constructor: it validates the whole list and
   * only then replaces the registry.
   */
  class GridCells {
    var grid: Grid

    ghost predicate Valid()
      reads this
    {
      WellFormedGrid(grid)
    }

    /** The registry before any list was loaded: unset. */
    constructor ()
      ensures Valid() && grid == None
    {
      grid := None;
    }

    method Load(cells: seq<RawObject>) returns (r: Result<seq<Cell>>)
      requires Valid()
      modifies this
      ensures Valid()
      ensures r == ParseCells(cells)
      ensures r.Success? ==> grid == Some(r.value)
      ensures r.Failure? ==> grid == old(grid)
    {
      r := ParseCells(cells);
      if r.Success? {
        grid := Some(r.value);
      }
    }
  }
}
