/**
 * The listing step of mat: build a name-keyed table of running
 * machines, then print one line per image that is not hidden, in the order
 * the machine manager returned them, coloured green when a machine of the
 * same name runs. A failed D-Bus call counts as an empty listing.
 *
 * `RunningTable` and `Listing` define, as functions of the replies, what the
 * two loops of `ListStep` compute; the lemmas state what the output is.
 */
module Listing {
  import opened Records
  import opened Format

  /** A hidden image: its name starts with a dot. */
  predicate IsHidden(name: string)
  {
    |name| > 0 && name[0] == '.'
  }

  /** The names in a ListMachines reply. */
  ghost function Names(ms: seq<MachineTuple>): set<string>
  {
    set i | 0 <= i < |ms| :: ms[i].0
  }

  /** The table left by inserting every machine of `ms`, in order, under its name. */
  function RunningTable(ms: seq<MachineTuple>): map<string, Machine>
  {
    if ms == [] then map[]
    else
      var m := MachineOf(ms[|ms| - 1]);
      RunningTable(ms[..|ms| - 1])[m.name := m]
  }

  /** The table holds exactly the names of the listed machines. */
  lemma {:induction false} RunningTableKeys(ms: seq<MachineTuple>)
    ensures RunningTable(ms).Keys == Names(ms)
  {
    if ms != [] {
      var init := ms[..|ms| - 1];
      RunningTableKeys(init);
      assert Names(ms) == Names(init) + {ms[|ms| - 1].0} by {
        forall x | x in Names(ms) ensures x in Names(init) + {ms[|ms| - 1].0} {
          var i :| 0 <= i < |ms| && ms[i].0 == x;
          if i < |ms| - 1 { assert init[i] == ms[i]; }
        }
        forall x | x in Names(init) ensures x in Names(ms) {
          var i :| 0 <= i < |init| && init[i].0 == x;
          assert ms[i] == init[i];
        }
      }
    }
  }

  /** A name listed more than once maps to its last entry: a later insert overwrites. */
  lemma {:induction false} RunningTableLastWins(ms: seq<MachineTuple>, j: nat)
    requires j < |ms|
    requires forall k :: j < k < |ms| ==> ms[k].0 != ms[j].0
    ensures ms[j].0 in RunningTable(ms) && RunningTable(ms)[ms[j].0] == MachineOf(ms[j])
  {
    if j < |ms| - 1 {
      var init := ms[..|ms| - 1];
      forall k | j < k < |init| ensures init[k].0 != init[j].0 {
        assert init[k] == ms[k];
      }
      RunningTableLastWins(init, j);
    }
  }

  /** The images of a ListImages reply that are not hidden, in reply order. */
  function Visible(l: seq<ImageTuple>): (v: seq<Image>)
    ensures |v| <= |l|
    ensures forall k :: 0 <= k < |v| ==> !IsHidden(v[k].name)
  {
    if l == [] then []
    else
      var img := ImageOf(l[|l| - 1]);
      Visible(l[..|l| - 1]) + (if IsHidden(img.name) then [] else [img])
  }

  /** The line of one image against the table of running machines. */
  function ImageLine(running: map<string, Machine>, img: Image): string
  {
    Line(img, img.name in running)
  }

  /** The lines printed for a ListImages reply. */
  function Listing(running: map<string, Machine>, l: seq<ImageTuple>): (out: seq<string>)
  {
    var v := Visible(l);
    seq(|v|, k requires 0 <= k < |v| => ImageLine(running, v[k]))
  }

  /** Filtering a concatenation filters each part: the reply order is kept. */
  lemma {:induction false} VisibleAppend(a: seq<ImageTuple>, b: seq<ImageTuple>)
    ensures Visible(a + b) == Visible(a) + Visible(b)
    decreases |b|
  {
    if b != [] {
      var init := b[..|b| - 1];
      assert (a + b)[..|a + b| - 1] == a + init;
      assert (a + b)[|a + b| - 1] == b[|b| - 1];
      VisibleAppend(a, init);
    } else {
      assert a + b == a;
    }
  }

  /** Every image that is not hidden is kept. */
  lemma {:induction false} VisibleKeepsShown(l: seq<ImageTuple>, i: nat)
    requires i < |l| && !IsHidden(l[i].0)
    ensures ImageOf(l[i]) in Visible(l)
  {
    assert l == l[..i] + [l[i]] + l[i + 1..];
    VisibleAppend(l[..i] + [l[i]], l[i + 1..]);
    VisibleAppend(l[..i], [l[i]]);
    assert [l[i]][..0] == [];
  }

  /** The lines of a concatenation are the lines of each part, in turn. */
  lemma ListingAppend(running: map<string, Machine>, a: seq<ImageTuple>, b: seq<ImageTuple>)
    ensures Listing(running, a + b) == Listing(running, a) + Listing(running, b)
  {
    VisibleAppend(a, b);
  }

  /**
   * A hidden image prints nothing, whether or not a machine of its name runs:
   * the output is that of the reply with the image taken out.
   */
  lemma HiddenImageHasNoLine(running: map<string, Machine>, l: seq<ImageTuple>, i: nat)
    requires i < |l| && IsHidden(l[i].0)
    ensures Listing(running, l) == Listing(running, l[..i] + l[i + 1..])
  {
    var a, b := l[..i], l[i + 1..];
    assert l == a + [l[i]] + b;
    VisibleAppend(a + [l[i]], b);
    VisibleAppend(a, [l[i]]);
    assert [l[i]][..0] == [];
    assert Visible([l[i]]) == [];
    VisibleAppend(a, b);
    assert Visible(l) == Visible(a + b);
  }

  /**
   * An image that is not hidden prints exactly one line, between the lines of
   * the images before it and those of the images after it.
   */
  lemma ShownImageHasOneLine(running: map<string, Machine>, l: seq<ImageTuple>, i: nat)
    requires i < |l| && !IsHidden(l[i].0)
    ensures Listing(running, l)
         == Listing(running, l[..i]) + [ImageLine(running, ImageOf(l[i]))] + Listing(running, l[i + 1..])
  {
    assert l == l[..i] + [l[i]] + l[i + 1..];
    ListingAppend(running, l[..i] + [l[i]], l[i + 1..]);
    ListingAppend(running, l[..i], [l[i]]);
    assert [l[i]][..0] == [];
  }

  /**
   * A line is coloured exactly when the reply of ListMachines named a machine
   * like its image.
   */
  lemma MarkedIffMachineListed(ms: seq<MachineTuple>, l: seq<ImageTuple>, k: nat)
    requires k < |Listing(RunningTable(ms), l)|
    ensures EndsWith(Listing(RunningTable(ms), l)[k], Reset) <==> Visible(l)[k].name in Names(ms)
    ensures Visible(l)[k].name in Names(ms) ==> StartsWith(Listing(RunningTable(ms), l)[k], Green)
  {
    RunningTableKeys(ms);
    var img := Visible(l)[k];
    LineMarkedIffRunning(img, img.name in RunningTable(ms));
  }

  /** With no running machines (ListMachines failed) no line is coloured. */
  lemma NoMarkerWithoutMachines(l: seq<ImageTuple>)
    ensures forall k :: 0 <= k < |Listing(map[], l)| ==> !EndsWith(Listing(map[], l)[k], Reset)
  {
    forall k | 0 <= k < |Listing(map[], l)| ensures !EndsWith(Listing(map[], l)[k], Reset) {
      LineMarkedIffRunning(Visible(l)[k], false);
    }
  }

  /** Two ListImages replies that agree on name, type, read-only flag and size. */
  predicate SameShownFields(l: seq<ImageTuple>, l': seq<ImageTuple>)
  {
    && |l| == |l'|
    && forall i :: 0 <= i < |l| ==>
         l[i].0 == l'[i].0 && l[i].1 == l'[i].1 && l[i].2 == l'[i].2 && l[i].5 == l'[i].5
  }

  /** Two ListMachines replies that list the same names in the same order. */
  predicate SameNames(ms: seq<MachineTuple>, ms': seq<MachineTuple>)
  {
    |ms| == |ms'| && forall i :: 0 <= i < |ms| ==> ms[i].0 == ms'[i].0
  }

  /** The lines depend only on the names in the table, never on the machines' records. */
  lemma {:induction false} ListingIgnoresUnshownFields(running: map<string, Machine>, running': map<string, Machine>,
                                                       l: seq<ImageTuple>, l': seq<ImageTuple>)
    requires running.Keys == running'.Keys
    requires SameShownFields(l, l')
    ensures Listing(running, l) == Listing(running', l')
  {
    if l != [] {
      var n := |l| - 1;
      ListingIgnoresUnshownFields(running, running', l[..n], l'[..n]);
      assert l == l[..n] + [l[n]] && l' == l'[..n] + [l'[n]];
      ListingAppend(running, l[..n], [l[n]]);
      ListingAppend(running', l'[..n], [l'[n]]);
      assert [l[n]][..0] == [] && [l'[n]][..0] == [];
    }
  }

  /**
   * The output depends only on the names of the machines and on the name,
   * type, read-only flag and size of the images: a machine's class, id and
   * path, and an image's timestamps and path, never change a line.
   */
  lemma OutputIgnoresUnshownFields(ms: seq<MachineTuple>, ms': seq<MachineTuple>,
                                   l: seq<ImageTuple>, l': seq<ImageTuple>)
    requires SameNames(ms, ms')
    requires SameShownFields(l, l')
    ensures Listing(RunningTable(ms), l) == Listing(RunningTable(ms'), l')
  {
    RunningTableKeys(ms);
    RunningTableKeys(ms');
    assert Names(ms) == Names(ms') by {
      forall x | x in Names(ms) ensures x in Names(ms') {
        var i :| 0 <= i < |ms| && ms[i].0 == x;
        assert ms'[i].0 == x;
      }
      forall x | x in Names(ms') ensures x in Names(ms) {
        var i :| 0 <= i < |ms'| && ms'[i].0 == x;
        assert ms[i].0 == x;
      }
    }
    ListingIgnoresUnshownFields(RunningTable(ms), RunningTable(ms'), l, l');
  }

  /**
   * The listing step: the body of the program after the D-Bus proxy is set
   * up. `machines` and `images` are the replies of ListMachines and
   * ListImages; `out` holds the printed lines in order. The step always
   * finishes successfully.
   */
  method ListStep(machines: Result<seq<MachineTuple>, DBusError>, images: Result<seq<ImageTuple>, DBusError>)
    returns (running: map<string, Machine>, out: seq<string>, status: Result<(), DBusError>)
    ensures running == (if machines.Ok? then RunningTable(machines.value) else map[])
    ensures out == (if images.Ok? then Listing(running, images.value) else [])
    ensures status == Ok(())
  {
    running := map[];
    if machines.Ok? {
      var l := machines.value;
      for i := 0 to |l|
        invariant running == RunningTable(l[..i])
      {
        var m := MachineOf(l[i]);
        assert l[..i + 1][..i] == l[..i];
        running := running[m.name := m];
      }
      assert l[..|l|] == l;
    }
    out := [];
    if images.Ok? {
      var l := images.value;
      for i := 0 to |l|
        invariant out == Listing(running, l[..i])
      {
        var img := ImageOf(l[i]);
        assert l[..i + 1] == l[..i] + [l[i]];
        ListingAppend(running, l[..i], [l[i]]);
        assert [l[i]][..0] == [];
        if IsHidden(img.name) {
          continue;
        }
        out := out + [Line(img, img.name in running)];
      }
      assert l[..|l|] == l;
    }
    status := Ok(());
  }
}
