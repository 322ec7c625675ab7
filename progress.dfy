/**
 * The byte-count progress display (src/progress.c): progress_init stores the
 * total and a label in module-level state, progress_update redraws a 30-cell
 * bar with a percentage and kilobyte figures. The float fraction sent/total is
 * taken in exact arithmetic and truncated as the (int) casts do.
 */
module Progress {
  import opened Text

  const Cells: nat := 30
  const Block: char := '█'

  /** (int)(min(sent/total, 1) * k): the fraction clamped above at 1, scaled and truncated toward zero. */
  function Scaled(sent: int, total: int, k: nat): (q: int)
    requires total > 0 && k > 0
    ensures q <= k
    ensures q == k <==> sent >= total
    ensures sent >= 0 ==> q >= 0
  {
    if sent > total then k
    else
      var q := CDiv(sent * k, total);
      ScaledBelow(sent, total, k, q);
      q
  }

  lemma ScaledBelow(sent: int, total: int, k: nat, q: int)
    requires total > 0 && k > 0 && sent <= total && q == CDiv(sent * k, total)
    ensures q <= k && (q == k <==> sent == total)
  {
    if sent == total {
      assert sent * k == k * total;
      assert q * total <= k * total < (q + 1) * total;
      MulCancel(k, q + 1, total);
      assert q * total < (k + 1) * total;
      MulCancel(q, k + 1, total);
    } else if sent >= 0 {
      assert (total - sent) * k > 0;
      assert q * total <= sent * k < k * total;
      MulCancel(q, k, total);
    }
  }

  /** The filled cells (int)(min(sent/total, 1) * 30). */
  function Filled(sent: int, total: int): (bars: int)
    requires total > 0
    ensures bars <= Cells
    ensures bars == Cells <==> sent >= total
    ensures sent >= 0 ==> bars >= 0
  {
    Scaled(sent, total, 30)
  }

  /** The percentage (int)(min(sent/total, 1) * 100). */
  function Percent(sent: int, total: int): (p: int)
    requires total > 0
    ensures p <= 100
    ensures p == 100 <==> sent >= total
    ensures sent >= 0 ==> p >= 0
  {
    Scaled(sent, total, 100)
  }

  /** The 30 cells for `bars` filled ones: blocks first, then '-'. */
  function BarText(bars: int): (r: string)
    ensures |r| == Cells
    ensures forall i :: 0 <= i < Cells ==> r[i] == (if i < bars then Block else '-')
  {
    seq(Cells, i requires 0 <= i < Cells => if i < bars then Block else '-')
  }

  /** The line progress_update() prints: "[bar] %3d%%  (%ld KB / %ld KB)\r". */
  function UpdateLine(sent: int, total: int): string
    requires total > 0
  {
    "[" + BarText(Filled(sent, total)) + "] " + SpacePad(IntText(Percent(sent, total)), 3) + "%"
    + "  (" + IntText(CDiv(sent, 1024)) + " KB / " + IntText(CDiv(total, 1024)) + " KB)\r"
  }

  /** The bar and the percentage never go back as the count grows. */
  lemma ProgressMonotone(s1: int, s2: int, total: int)
    requires total > 0 && s1 <= s2
    ensures Filled(s1, total) <= Filled(s2, total)
    ensures Percent(s1, total) <= Percent(s2, total)
  {
    if s2 <= total {
      CDivMonotone(s1 * 30, s2 * 30, total);
      CDivMonotone(s1 * 100, s2 * 100, total);
    }
  }

  /** A line drawn for the whole total shows a full bar at 100%. */
  lemma CompleteLine(total: int)
    requires total > 0
    ensures BarText(Filled(total, total)) == Repeat(Block, 30)
    ensures UpdateLine(total, total)[..32] == "[" + Repeat(Block, 30) + "]"
    ensures Percent(total, total) == 100
  {
    assert BarText(Filled(total, total)) == Repeat(Block, 30);
  }

  /** A negative count draws an empty bar: the fraction is not clamped from below. */
  lemma NegativeCount(sent: int, total: int)
    requires total > 0 && sent < 0
    ensures Filled(sent, total) <= 0 && Percent(sent, total) <= 0
    ensures BarText(Filled(sent, total)) == Repeat('-', 30)
  {
    assert sent * 30 < 0 && sent * 100 < 0;
  }

  /** The module state of progress.c and what it has written to the terminal. */
  class Reporter {
    /** g_total */
    var total: int
    /** g_label */
    var labelText: string
    var out: seq<string>

    /** Program start: g_total is 0 and g_label is empty. */
    constructor ()
      ensures total == 0 && labelText == "" && out == []
    {
      total, labelText, out := 0, "", [];
    }

    /**
     * progress_init(): the total is stored, the label is kept to at most 127
     * characters (strncpy into 128 bytes, last byte forced to NUL), and the
     * label and an empty bar at 0% are printed.
     */
    method Init(name: string, totalBytes: int)
      modifies this
      ensures total == totalBytes
      ensures labelText == Truncate(name, 127) && |labelText| <= 127
      ensures out == old(out) + [labelText + "\n", "[" + Repeat('-', 30) + "] 0%\r"]
    {
      total := totalBytes;
      labelText := Truncate(name, 127);
      out := out + [labelText + "\n", "[" + Repeat('-', 30) + "] 0%\r"];
    }

    /** progress_update(): nothing when the stored total is not positive, otherwise one redrawn line. */
    method Update(sent: int)
      modifies this`out
      ensures total <= 0 ==> out == old(out)
      ensures total > 0 ==> out == old(out) + [UpdateLine(sent, total)]
    {
      if total <= 0 {
        return;
      }
      var bars := Filled(sent, total);
      var cells := "";
      var i := 0;
      while i < 30
        invariant 0 <= i <= 30 && |cells| == i
        invariant forall j :: 0 <= j < i ==> cells[j] == (if j < bars then Block else '-')
      {
        cells := cells + (if i < bars then [Block] else "-");
        i := i + 1;
      }
      assert cells == BarText(bars);
      var line := "[" + cells + "] " + SpacePad(IntText(Percent(sent, total)), 3) + "%";
      line := line + "  (" + IntText(CDiv(sent, 1024)) + " KB / " + IntText(CDiv(total, 1024)) + " KB)\r";
      out := out + [line];
    }

    /** progress_finish() */
    method Finish()
      modifies this`out
      ensures out == old(out) + ["\nDone.\n"]
    {
      out := out + ["\nDone.\n"];
    }
  }
}
