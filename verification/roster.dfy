/**
 * The fleet roster `neighbors.txt`: written by check-cluster.py from the provider's answer,
 * read back by send-configs.py, run-cluster.py and retrieve-files.py (readiness flag and
 * instance list) and by the prime-search worker (neighbour list).
 */
module Roster {
  import opened Basics
  import opened Text

  /** One row of the provider's answer, `[State.Name, PublicIpAddress]`; the address is null until assigned. */
  datatype InstanceRow = InstanceRow(state: string, address: Option<string>)

  const ReadyPrefix: string := "Ready. "
  const NotReadyPrefix: string := "NOT ready. "
  const AddressesTitle: string := "IP addresses of all instances:"

  /** `sum(t[0] == "running" for t in rows)`. */
  function CountRunning(rows: seq<InstanceRow>): (ready: nat)
    ensures ready <= |rows|
    ensures ready == |rows| <==> forall i :: 0 <= i < |rows| ==> rows[i].state == "running"
  {
    if rows == [] then 0
    else
      var last := rows[|rows| - 1];
      var prev := CountRunning(rows[..|rows| - 1]);
      assert forall i :: 0 <= i < |rows| - 1 ==> rows[..|rows| - 1][i] == rows[i];
      prev + if last.state == "running" then 1 else 0
  }

  predicate AllAddressed(rows: seq<InstanceRow>) {
    forall i :: 0 <= i < |rows| ==> rows[i].address.Some?
  }

  /** `list(map(itemgetter(1), rows))` once no address is null. */
  function Addresses(rows: seq<InstanceRow>): (addrs: seq<string>)
    requires AllAddressed(rows)
    ensures |addrs| == |rows|
    ensures forall i :: 0 <= i < |rows| ==> addrs[i] == rows[i].address.value
  {
    seq(|rows|, i requires 0 <= i < |rows| => rows[i].address.value)
  }

  /** The roster's first line, without its newline. */
  function Header(ready: bool): (h: string)
    ensures h != [] && (h[0] == 'R' <==> ready)
  {
    (if ready then ReadyPrefix else NotReadyPrefix) + AddressesTitle
  }

  /** The whole roster file: the header line, then one address per line, no final newline. */
  function RosterText(ready: bool, addrs: seq<string>): (t: string)
    ensures t != [] && (t[0] == 'R' <==> ready)
  {
    Header(ready) + "\n" + Join(addrs, "\n")
  }

  datatype CheckOutcome =
    | NoInstance
      /** The roster was written in full. */
    | Written(total: nat, ready: nat, roster: string)
      /** `'\n'.join` raised on a null address after the header had been written. */
    | JoinFailed(total: nat, ready: nat, partial: string)

  /**
   * check-cluster.py `main` after the provider query: classify the first reservation only and
   * write the roster with successive writes.
   */
  method CheckCluster(status: seq<seq<InstanceRow>>) returns (out: CheckOutcome)
    ensures out == NoInstance <==> |status| == 0
    ensures |status| > 0 ==> !out.NoInstance? && out.total == |status[0]| && out.ready == CountRunning(status[0])
    ensures |status| > 0 && AllAddressed(status[0]) ==>
      out.Written? && out.roster == RosterText(out.total == out.ready, Addresses(status[0]))
    ensures |status| > 0 && !AllAddressed(status[0]) ==>
      out.JoinFailed? && out.partial == Header(out.total == out.ready) + "\n"
  {
    if |status| == 0 {
      return NoInstance;
    }
    var rows := status[0];
    var total := |rows|;
    var ready := CountRunning(rows);
    var file := "";
    if total == ready {
      file := file + ReadyPrefix;
    } else {
      file := file + NotReadyPrefix;
    }
    file := file + AddressesTitle + "\n";
    assert file == Header(total == ready) + "\n";
    if !AllAddressed(rows) {
      return JoinFailed(total, ready, file);
    }
    file := file + Join(Addresses(rows), "\n");
    out := Written(total, ready, file);
  }

  /** Line 1 begins with `R` exactly when every record of the first reservation is running. */
  lemma HeaderReadiness(status: seq<seq<InstanceRow>>)
    requires |status| > 0
    ensures var h := Header(|status[0]| == CountRunning(status[0]));
      (h[0] == 'R') <==> forall i :: 0 <= i < |status[0]| ==> status[0][i].state == "running"
  {
  }

  /** What the dispatch scripts take from the roster. */
  datatype RosterView = RosterView(ready: bool, instances: seq<string>)

  /** `[t.strip() for t in lines if t.strip()]`. */
  function Instances(lines: seq<string>): (r: seq<string>)
    ensures |r| <= |lines|
    ensures forall x :: x in r ==> x != [] && Stripped(x)
  {
    if lines == [] then []
    else
      var t := Strip(lines[|lines| - 1]);
      Instances(lines[..|lines| - 1]) + (if t != [] then [t] else [])
  }

  /** The indices of the lines that are not blank, in increasing order. */
  function KeptLines(lines: seq<string>): (idx: seq<nat>)
    ensures forall k :: 0 <= k < |idx| ==> idx[k] < |lines|
  {
    if lines == [] then []
    else
      var n := |lines| - 1;
      KeptLines(lines[..n]) + (if Strip(lines[n]) != [] then [n] else [])
  }

  /** Only non-blank lines are kept, and in file order. */
  lemma {:induction false} KeptLinesOrdered(lines: seq<string>)
    ensures forall k :: 0 <= k < |KeptLines(lines)| ==> Strip(lines[KeptLines(lines)[k]]) != []
    ensures forall k, l :: 0 <= k < l < |KeptLines(lines)| ==> KeptLines(lines)[k] < KeptLines(lines)[l]
  {
    if lines != [] {
      var n := |lines| - 1;
      var front := lines[..n];
      KeptLinesOrdered(front);
      var pre, idx := KeptLines(front), KeptLines(lines);
      var extra := if Strip(lines[n]) != [] then [n] else [];
      assert idx == pre + extra;
      forall k | 0 <= k < |pre|
        ensures idx[k] == pre[k] < n && Strip(lines[idx[k]]) != []
      {
        AppendLeft(pre, extra, k);
        assert Strip(front[pre[k]]) != [];
        assert front[pre[k]] == lines[pre[k]];
      }
      forall k, l | 0 <= k < l < |idx|
        ensures idx[k] < idx[l]
      {
        if l < |pre| {
          assert pre[k] < pre[l];
        } else {
          assert idx[l] == n;
        }
      }
    }
  }

  /** Every non-blank line is kept. */
  lemma {:induction false} KeptLinesComplete(lines: seq<string>)
    ensures forall i :: 0 <= i < |lines| && Strip(lines[i]) != [] ==> i in KeptLines(lines)
  {
    if lines != [] {
      var n := |lines| - 1;
      var front := lines[..n];
      KeptLinesComplete(front);
      var pre, idx := KeptLines(front), KeptLines(lines);
      var extra := if Strip(lines[n]) != [] then [n] else [];
      assert idx == pre + extra;
      forall i | 0 <= i < |lines| && Strip(lines[i]) != []
        ensures i in idx
      {
        if i < n {
          assert front[i] == lines[i];
        } else {
          assert idx[|pre|] == n;
        }
      }
    }
  }

  /** Instance `k` is the strip of the `k`-th kept line. */
  lemma {:induction false} InstancesAreKeptLines(lines: seq<string>)
    ensures |Instances(lines)| == |KeptLines(lines)|
    ensures forall k :: 0 <= k < |KeptLines(lines)| ==> Instances(lines)[k] == Strip(lines[KeptLines(lines)[k]])
  {
    if lines != [] {
      var n := |lines| - 1;
      var front := lines[..n];
      InstancesAreKeptLines(front);
      var pre, ins := KeptLines(front), Instances(front);
      var t := Strip(lines[n]);
      var extra := if t != [] then [t] else [];
      var extraIdx := if t != [] then [n] else [];
      assert Instances(lines) == ins + extra;
      assert KeptLines(lines) == pre + extraIdx;
      forall k | 0 <= k < |pre|
        ensures Instances(lines)[k] == Strip(lines[KeptLines(lines)[k]])
      {
        AppendLeft(ins, extra, k);
        AppendLeft(pre, extraIdx, k);
        assert front[pre[k]] == lines[pre[k]];
      }
    }
  }

  /**
   * The instances are the strips of the lines, blank ones dropped: a text is an instance
   * exactly when it is non-empty and the strip of some line.
   */
  lemma InstancesMembers(lines: seq<string>, x: string)
    ensures x in Instances(lines) <==> x != [] && exists i :: 0 <= i < |lines| && Strip(lines[i]) == x
  {
    InstancesAreKeptLines(lines);
    KeptLinesOrdered(lines);
    KeptLinesComplete(lines);
    var idx := KeptLines(lines);
    if x in Instances(lines) {
      var k :| 0 <= k < |Instances(lines)| && Instances(lines)[k] == x;
      assert Strip(lines[idx[k]]) == x;
    }
    if x != [] && exists i :: 0 <= i < |lines| && Strip(lines[i]) == x {
      var i :| 0 <= i < |lines| && Strip(lines[i]) == x;
      var k :| 0 <= k < |idx| && idx[k] == i;
      assert Instances(lines)[k] == x;
    }
  }

  /** Lines that are already stripped and non-empty are kept, all of them, in order. */
  lemma {:induction false} InstancesOfStripped(lines: seq<string>)
    requires forall i :: 0 <= i < |lines| ==> lines[i] != [] && Stripped(lines[i])
    ensures Instances(lines) == lines
  {
    if lines != [] {
      var n := |lines| - 1;
      StripSpec(lines[n]);
      InstancesOfStripped(lines[..n]);
      assert lines[..n] + [lines[n]] == lines;
    }
  }

  /**
   * The readers in the dispatch scripts: readiness is whether the first character is `R`, and
   * the instances are the stripped, non-empty lines after line 1, with the file read in text
   * mode. `None` where `status[0]` raises `IndexError` on an empty file.
   */
  function ReadRoster(text: string): (r: Option<RosterView>)
    ensures r.None? <==> text == []
    ensures r.Some? ==> (r.value.ready <==> text[0] == 'R')
    ensures r.Some? ==> r.value.instances == Instances(Lines(UniversalNewlines(text))[1..])
  {
    if text == [] then None
    else Some(RosterView(text[0] == 'R', Instances(Lines(UniversalNewlines(text))[1..])))
  }

  /** In text mode a lone carriage return ends line 1 too: the address after it is an instance. */
  lemma CarriageReturnEndsLine()
    ensures ReadRoster("R\rA") == Some(RosterView(true, ["A"]))
  {
    assert UniversalNewlines("R\rA") == "R\nA" by {
      assert UniversalNewlines("\rA") == "\nA" by {
        assert "\rA"[1..] == "A" && "A"[1..] == [];
      }
      assert "R\rA"[1..] == "\rA";
    }
    assert Lines("R\nA")[1..] == ["A"] by {
      assert "R\nA" == "R" + ['\n'] + "A";
      SplitCons("R", '\n', "A");
      assert Split("A", '\n') == ["A"];
    }
    assert Instances(["A"]) == ["A"] by {
      StripSpec("A");
      assert ["A"][..0] == [];
    }
  }

  /** The worker's reader: every line after the first, trimmed, blank lines kept. */
  function Neighbors(text: string): (ns: seq<string>)
    ensures |ns| == if text == [] then 0 else |Lines(text)| - 1
  {
    if text == [] then [] else StripAll(Lines(text)[1..])
  }

  /** Neighbour `i` is line `i + 1`, trimmed. */
  lemma NeighborsAt(text: string, i: nat)
    requires i < |Neighbors(text)|
    ensures Neighbors(text)[i] == Strip(Lines(text)[i + 1])
  {
    StripAllAt(Lines(text)[1..], i);
  }

  /** `[line.trim() for line in lines]`. */
  function StripAll(lines: seq<string>): (r: seq<string>)
    ensures |r| == |lines|
  {
    if lines == [] then [] else StripAll(lines[..|lines| - 1]) + [Strip(lines[|lines| - 1])]
  }

  lemma {:induction false} StripAllAt(lines: seq<string>, i: nat)
    requires i < |lines|
    ensures StripAll(lines)[i] == Strip(lines[i])
  {
    var n := |lines|;
    if i < n - 1 {
      StripAllAt(lines[..n - 1], i);
      AppendLeft(StripAll(lines[..n - 1]), [Strip(lines[n - 1])], i);
    }
  }

  /** Lines that are already trimmed are left as they are. */
  lemma {:induction false} StripAllOfStripped(lines: seq<string>)
    requires forall i :: 0 <= i < |lines| ==> Stripped(lines[i])
    ensures StripAll(lines) == lines
  {
    if lines != [] {
      var n := |lines|;
      StripAllOfStripped(lines[..n - 1]);
      StripSpec(lines[n - 1]);
      assert lines[..n - 1] + [lines[n - 1]] == lines;
    }
  }

  /** The header is one line, whichever way line ends are read. */
  lemma HeaderHasNoLineBreak(ready: bool)
    ensures '\n' !in Header(ready) && '\r' !in Header(ready)
  {
    var p := if ready then ReadyPrefix else NotReadyPrefix;
    assert Printable(p) by {
      if ready {
        assert Printable(ReadyPrefix);
      } else {
        assert Printable(NotReadyPrefix);
      }
    }
    assert Printable(AddressesTitle);
    PrintableConcat(p, AddressesTitle);
    PrintableHasNoLineBreak(Header(ready));
  }

  /** A roster of addresses without carriage returns holds none. */
  lemma RosterHasNoCarriageReturn(ready: bool, addrs: seq<string>)
    requires forall i :: 0 <= i < |addrs| ==> '\r' !in addrs[i]
    ensures '\r' !in RosterText(ready, addrs)
  {
    HeaderHasNoLineBreak(ready);
    JoinAvoids(addrs, "\n", '\r');
  }

  lemma LinesOfRoster(ready: bool, addrs: seq<string>)
    requires forall i :: 0 <= i < |addrs| ==> '\n' !in addrs[i]
    requires addrs == [] || addrs[|addrs| - 1] != []
    ensures Lines(RosterText(ready, addrs)) == [Header(ready)] + addrs
  {
    HeaderHasNoLineBreak(ready);
    SplitCons(Header(ready), '\n', Join(addrs, "\n"));
    SplitJoin(addrs, '\n');
  }

  /**
   * Round trip check-cluster -> dispatch scripts: for addresses that are non-empty and hold no
   * whitespace, reading the written roster gives back the readiness flag and the addresses.
   */
  lemma ReadWrittenRoster(ready: bool, addrs: seq<string>)
    requires forall i :: 0 <= i < |addrs| ==> addrs[i] != [] && NoSpace(addrs[i])
    ensures ReadRoster(RosterText(ready, addrs)) == Some(RosterView(ready, addrs))
  {
    var text := RosterText(ready, addrs);
    assert '\r' !in text by {
      forall i | 0 <= i < |addrs|
        ensures '\r' !in addrs[i]
      {
        assert NoSpace(addrs[i]);
      }
      RosterHasNoCarriageReturn(ready, addrs);
    }
    assert Lines(UniversalNewlines(text))[1..] == addrs by {
      UniversalNewlinesPlain(text);
      LinesOfRoster(ready, addrs);
    }
    InstancesOfStripped(addrs);
  }

  /**
   * Round trip check-cluster -> worker: addresses without newlines and without surrounding
   * whitespace, the last one non-empty, come back as the neighbour list.
   */
  lemma NeighborsOfWrittenRoster(ready: bool, addrs: seq<string>)
    requires forall i :: 0 <= i < |addrs| ==> '\n' !in addrs[i] && Stripped(addrs[i])
    requires addrs == [] || addrs[|addrs| - 1] != []
    ensures Neighbors(RosterText(ready, addrs)) == addrs
  {
    LinesOfRoster(ready, addrs);
    assert Lines(RosterText(ready, addrs))[1..] == addrs;
    StripAllOfStripped(addrs);
  }
}
