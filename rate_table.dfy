/**
 * The GST rate table: the rows of the rates CSV folded into a dictionary
 * from item name to rate. A row whose rate column is missing carries
 * `None`, as csv.DictReader fills short rows. Keys are taken verbatim:
 * no case folding and no trimming.
 */
module RateTable {
  import opened Wrappers

  /** One parsed CSV row: the key column and the rate column. */
  datatype Row = Row(item: string, rate: Option<string>)

  type Table = map<string, Option<string>>

  /** The table that inserting the rows in order into an empty dictionary yields. */
  function BuildTable(rows: seq<Row>): (t: Table)
    ensures forall i :: 0 <= i < |rows| ==> rows[i].item in t
    ensures |t| <= |rows|
  {
    if rows == [] then map[]
    else
      var front := rows[..|rows| - 1];
      var last := rows[|rows| - 1];
      assert forall i :: 0 <= i < |front| ==> rows[i] == front[i];
      BuildTable(front)[last.item := last.rate]
  }

  /** The item names some row supplies. */
  ghost function ItemsOf(rows: seq<Row>): set<string>
  {
    set i | 0 <= i < |rows| :: rows[i].item
  }

  /** Row `i` is the last row that mentions its item. */
  ghost predicate IsLastRowFor(rows: seq<Row>, i: int)
  {
    0 <= i < |rows| && forall j :: i < j < |rows| ==> rows[j].item != rows[i].item
  }

  /** Exactly the items some row supplies are keys of the table. */
  lemma {:induction false} BuildTableKeys(rows: seq<Row>)
    ensures BuildTable(rows).Keys == ItemsOf(rows)
  {
    if rows != [] {
      var front := rows[..|rows| - 1];
      BuildTableKeys(front);
      assert ItemsOf(rows) == ItemsOf(front) + {rows[|rows| - 1].item} by {
        forall k | k in ItemsOf(rows) ensures k in ItemsOf(front) + {rows[|rows| - 1].item} {
          var i :| 0 <= i < |rows| && rows[i].item == k;
          if i < |rows| - 1 { assert front[i] == rows[i]; }
        }
        forall k | k in ItemsOf(front) ensures k in ItemsOf(rows) {
          var i :| 0 <= i < |front| && front[i].item == k;
          assert rows[i] == front[i];
        }
      }
    }
  }

  /** Last write wins: the rate stored for an item is the one of the last row that names it. */
  lemma {:induction false} BuildTableLastWriteWins(rows: seq<Row>, i: int)
    requires IsLastRowFor(rows, i)
    ensures rows[i].item in BuildTable(rows)
    ensures BuildTable(rows)[rows[i].item] == rows[i].rate
  {
    if i < |rows| - 1 {
      var front := rows[..|rows| - 1];
      assert front[i] == rows[i];
      BuildTableLastWriteWins(front, i);
    }
  }

  /** Every entry of the table comes from the last row that names its key. */
  lemma {:induction false} BuildTableEntryIsLastRow(rows: seq<Row>, item: string) returns (i: int)
    requires item in BuildTable(rows)
    ensures IsLastRowFor(rows, i) && rows[i].item == item
    ensures BuildTable(rows)[item] == rows[i].rate
  {
    var last := rows[|rows| - 1];
    if last.item == item {
      i := |rows| - 1;
    } else {
      var front := rows[..|rows| - 1];
      assert BuildTable(rows) == BuildTable(front)[last.item := last.rate];
      assert item in BuildTable(front) && BuildTable(rows)[item] == BuildTable(front)[item];
      i := BuildTableEntryIsLastRow(front, item);
      assert rows[i] == front[i];
      forall j | i < j < |rows| ensures rows[j].item != rows[i].item {
        if j < |rows| - 1 { assert rows[j] == front[j]; }
      }
    }
  }
}
