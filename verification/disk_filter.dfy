/** The filtering step of `run_lsblk`: of the listing's lines, keep those
    that contain "disk" and join them with line feeds. Running the listing
    tool and splitting its output into lines stay outside the model. */
module DiskFilter {
  import opened Text

  /** The marker searched for in each line. */
  const DiskMarker: string := "disk"

  /** The lines that contain the marker, in their original order. */
  function DiskLines(lines: seq<string>): (r: seq<string>)
    ensures |r| <= |lines|
    ensures forall l :: l in r <==> l in lines && HasSubstring(l, DiskMarker)
    decreases |lines|
  {
    if |lines| == 0 then []
    else
      var rest := DiskLines(lines[1..]);
      assert forall l :: l in lines <==> l == lines[0] || l in lines[1..] by {
        assert lines == [lines[0]] + lines[1..];
      }
      (if Contains(lines[0], DiskMarker) then [lines[0]] else []) + rest
  }

  /** The text shown to the operator. */
  function DiskReport(lines: seq<string>): string {
    Join(DiskLines(lines), '\n')
  }

  /** Filtering one line keeps it exactly when it contains the marker. */
  lemma DiskLinesSingle(l: string)
    ensures DiskLines([l]) == if HasSubstring(l, DiskMarker) then [l] else []
  {
    assert [l][1..] == [];
  }

  /** Filtering commutes with concatenation; with the one-line case this
      pins the result down as the order-preserving selection. */
  lemma {:induction false} DiskLinesAppend(a: seq<string>, b: seq<string>)
    ensures DiskLines(a + b) == DiskLines(a) + DiskLines(b)
    decreases |a|
  {
    if |a| == 0 {
      assert a + b == b;
    } else {
      assert (a + b)[1..] == a[1..] + b;
      DiskLinesAppend(a[1..], b);
    }
  }

  /** The report splits back into the selected lines, provided no line
      contains a line feed (true of lines produced by splitting). An empty
      selection gives an empty report, which is not shown. */
  lemma DiskReportLines(lines: seq<string>)
    requires forall i :: 0 <= i < |lines| ==> '\n' !in lines[i]
    ensures DiskLines(lines) == [] ==> DiskReport(lines) == ""
    ensures DiskLines(lines) != [] ==> Split(DiskReport(lines), '\n') == DiskLines(lines)
  {
    var r := DiskLines(lines);
    if r != [] {
      forall i | 0 <= i < |r| ensures '\n' !in r[i] {
        assert r[i] in lines;
      }
      SplitJoin(r, '\n');
    }
  }
}
