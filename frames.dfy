/** A pandas DataFrame restricted to numeric columns: each column is a vector of cells, one
    per row, and a cell is a number or missing (NaN). The frame is changed in place. */
module Frames {
  import opened Wrappers

  type Cell = Option<real>

  /** No name twice. */
  predicate Distinct(names: seq<string>) {
    forall i, j :: 0 <= i < j < |names| ==> names[i] != names[j]
  }

  /** Columns, data and height that make a frame: distinct names, one vector per name, all
      vectors of the frame's height. */
  ghost predicate Shaped(columns: seq<string>, data: map<string, seq<Cell>>, height: nat) {
    && Distinct(columns)
    && (forall c :: c in data <==> c in columns)
    && (forall c :: c in data ==> |data[c]| == height)
  }

  /** The column list after `df[name] = …`: an existing column keeps its place, a new one is
      appended. */
  function WithColumn(columns: seq<string>, name: string): (r: seq<string>)
    ensures name in r && forall c :: c in r <==> c in columns || c == name
    ensures Distinct(columns) ==> Distinct(r)
  {
    if name in columns then columns else columns + [name]
  }

  /** Setting a column of the frame's height keeps a frame. */
  lemma WithColumnShaped(columns: seq<string>, data: map<string, seq<Cell>>, height: nat, name: string, values: seq<Cell>)
    requires Shaped(columns, data, height) && |values| == height
    ensures Shaped(WithColumn(columns, name), data[name := values], height)
  {
  }

  class Frame {
    /** Column names in frame order. */
    var columns: seq<string>
    /** Each column's cells. */
    var data: map<string, seq<Cell>>
    /** Number of rows. */
    var height: nat

    ghost predicate Valid()
      reads this
    {
      Shaped(columns, data, height)
    }

    /** A frame as read from a spreadsheet. */
    constructor (columns: seq<string>, data: map<string, seq<Cell>>, height: nat)
      requires Shaped(columns, data, height)
      ensures Valid()
      ensures this.columns == columns && this.data == data && this.height == height
    {
      this.columns := columns;
      this.data := data;
      this.height := height;
    }

    /** `df[name] = values`: overwrites an existing column where it stands, or appends a new one. */
    method SetColumn(name: string, values: seq<Cell>)
      requires Valid() && |values| == height
      modifies this
      ensures Valid() && height == old(height)
      ensures columns == WithColumn(old(columns), name)
      ensures data == old(data)[name := values]
    {
      if name !in columns {
        columns := columns + [name];
      }
      data := data[name := values];
    }
  }
}
