/**
 * The selection logic of the debug console (include/debug/DebugConsole.h):
 * which channels the console lists and in what order, and which debug
 * toggles run their per-frame action.  The console's static state is the
 * state of one DebugConsole object; the logger's channel list is a
 * parameter, and a toggle's callbacks are represented by whether it has an
 * onTick action.  The windows and widgets are not part of this model.
 */
module DebugConsole {
  import opened Wrappers

  /**
   * DebugToggle: the label (`caption`), the flag it points to (None for a null pointer,
   * otherwise the flag's current value) and whether an onTick action is set.
   */
  datatype DebugToggle = DebugToggle(caption: string, flag: Option<bool>, hasOnTick: bool)

  /** A toggle whose action runs this frame: non-null flag, flag set, and an onTick action. */
  predicate Active(t: DebugToggle)
  {
    t.flag == Some(true) && t.hasOnTick
  }

  /** Indices, in increasing order, of the active toggles among toggles[from..]. */
  function ActiveFrom(toggles: seq<DebugToggle>, from: nat): (r: seq<nat>)
    requires from <= |toggles|
    ensures forall k :: 0 <= k < |r| ==> from <= r[k] < |toggles| && Active(toggles[r[k]])
    ensures forall i :: from <= i < |toggles| && Active(toggles[i]) ==> i in r
    ensures forall j, k :: 0 <= j < k < |r| ==> r[j] < r[k]
    decreases |toggles| - from
  {
    if from == |toggles| then []
    else if Active(toggles[from]) then [from] + ActiveFrom(toggles, from + 1)
    else ActiveFrom(toggles, from + 1)
  }

  /** The name shown for a channel: "Main" and "LocalTunnel" for the two built-in ones. */
  function DisplayName(channel: string): string
  {
    if channel == "main" then "Main"
    else if channel == "localtunnel" then "LocalTunnel"
    else channel
  }

  /** The names shown for a list of channels, one per channel. */
  function DisplayNames(order: seq<string>): (r: seq<string>)
    ensures |r| == |order|
  {
    if order == [] then [] else DisplayNames(order[..|order| - 1]) + [DisplayName(order[|order| - 1])]
  }

  /** Entry `k` of the display list is the name of channel `k`. */
  lemma {:induction false} DisplayNamesAt(order: seq<string>)
    ensures forall k :: 0 <= k < |order| ==> DisplayNames(order)[k] == DisplayName(order[k])
  {
    if order != [] {
      var init := order[..|order| - 1];
      DisplayNamesAt(init);
      forall k | 0 <= k < |order| - 1
        ensures DisplayNames(order)[k] == DisplayName(order[k])
      {
        assert order[k] == init[k];
      }
    }
  }

  /** The two channels the console always lists first. */
  predicate BuiltIn(c: string)
  {
    c == "main" || c == "localtunnel"
  }

  /** The channels among the first `n` of the logger's that are not built in, in the logger's order. */
  function OthersUpTo(chans: seq<string>, n: nat): (r: seq<string>)
    requires n <= |chans|
    ensures |r| <= n
  {
    if n == 0 then []
    else OthersUpTo(chans, n - 1) + (if BuiltIn(chans[n - 1]) then [] else [chans[n - 1]])
  }

  /** The channels other than "main" and "localtunnel", in the logger's order. */
  function Others(chans: seq<string>): seq<string>
  {
    OthersUpTo(chans, |chans|)
  }

  /** The others among the first `n` channels are exactly those channels that are not built in. */
  lemma {:induction false} OthersUpToMembers(chans: seq<string>, n: nat)
    requires n <= |chans|
    ensures forall k :: 0 <= k < |OthersUpTo(chans, n)| ==>
      OthersUpTo(chans, n)[k] in chans[..n] && !BuiltIn(OthersUpTo(chans, n)[k])
    ensures forall j :: 0 <= j < n && !BuiltIn(chans[j]) ==> chans[j] in OthersUpTo(chans, n)
  {
    if n > 0 {
      OthersUpToMembers(chans, n - 1);
      var prev, r := OthersUpTo(chans, n - 1), OthersUpTo(chans, n);
      forall k | 0 <= k < |r|
        ensures r[k] in chans[..n] && !BuiltIn(r[k])
      {
        if k < |prev| {
          assert r[k] == prev[k] && prev[k] in chans[..n - 1];
          assert chans[..n - 1] == chans[..n][..n - 1];
        } else {
          assert r[k] == chans[n - 1] == chans[..n][n - 1];
        }
      }
      forall j | 0 <= j < n && !BuiltIn(chans[j])
        ensures chans[j] in r
      {
        if j < n - 1 {
          assert chans[j] in prev;
        } else {
          assert r[|r| - 1] == chans[j];
        }
      }
    }
  }

  /** The built-in channels that are present, "main" before "localtunnel". */
  function Pinned(chans: seq<string>): seq<string>
  {
    (if "main" in chans then ["main"] else []) + (if "localtunnel" in chans then ["localtunnel"] else [])
  }

  /**
   * The channel order of buildChannelLists_: the pinned channels, then the
   * others in the logger's order; ["main"] when the logger has no channel.
   */
  function ChannelOrder(chans: seq<string>): seq<string>
  {
    if chans == [] then ["main"] else Pinned(chans) + Others(chans)
  }

  /**
   * The order is never empty, starts with "main" when the logger has it,
   * puts "localtunnel" right after, and lists every channel of the logger.
   */
  lemma {:induction false} ChannelOrderShape(chans: seq<string>)
    ensures ChannelOrder(chans) != []
    ensures "main" in chans ==> ChannelOrder(chans)[0] == "main"
    ensures "localtunnel" in chans ==> ChannelOrder(chans)[if "main" in chans then 1 else 0] == "localtunnel"
    ensures forall c :: c in chans ==> c in ChannelOrder(chans)
  {
    if chans != [] {
      OthersUpToMembers(chans, |chans|);
      var r := ChannelOrder(chans);
      assert r == Pinned(chans) + Others(chans);
      forall c | c in chans
        ensures c in r
      {
        var j :| 0 <= j < |chans| && chans[j] == c;
        if !BuiltIn(c) {
          assert c in Others(chans);
        }
      }
    }
  }

  class DebugConsole {
    var toggles: seq<DebugToggle>
    var debugExecEnabled: bool

    constructor ()
      ensures toggles == [] && !debugExecEnabled
    {
      toggles := [];
      debugExecEnabled := false;
    }

    method AddToggle(t: DebugToggle)
      modifies this
      ensures toggles == old(toggles) + [t] && debugExecEnabled == old(debugExecEnabled)
    {
      toggles := toggles + [t];
    }

    method ClearToggles()
      modifies this
      ensures toggles == [] && debugExecEnabled == old(debugExecEnabled)
    {
      toggles := [];
    }

    method SetDebugExecEnabled(v: bool)
      modifies this
      ensures debugExecEnabled == v && toggles == old(toggles)
    {
      debugExecEnabled := v;
    }

    /**
     * RunActiveDebugToggles: the indices of the toggles whose onTick runs this
     * frame, in toggle order; none while execution is disabled.
     */
    method RunActiveDebugToggles() returns (ran: seq<nat>)
      ensures !debugExecEnabled ==> ran == []
      ensures debugExecEnabled ==> ran == ActiveFrom(toggles, 0)
    {
      ran := [];
      if !debugExecEnabled {
        return;
      }
      var i := |toggles|;
      while i > 0
        invariant 0 <= i <= |toggles|
        invariant ran == ActiveFrom(toggles, i)
      {
        i := i - 1;
        if Active(toggles[i]) {
          ran := [i] + ran;
        }
      }
    }
  }

  /**
   * buildChannelLists_: clears both lists, pushes the pinned channels, then
   * every other channel, and falls back to ("Main", "main") when nothing was pushed.
   */
  method BuildChannelLists(chans: seq<string>) returns (display: seq<string>, order: seq<string>)
    ensures order == ChannelOrder(chans)
    ensures display == DisplayNames(order)
  {
    display := [];
    order := [];
    if "main" in chans {
      display := display + ["Main"];
      order := order + ["main"];
    }
    if "localtunnel" in chans {
      display := display + ["LocalTunnel"];
      order := order + ["localtunnel"];
    }
    PinnedFirst(chans, display, order);
    for i := 0 to |chans|
      invariant order == Pinned(chans) + OthersUpTo(chans, i)
      invariant display == DisplayNames(order)
    {
      var c := chans[i];
      if !BuiltIn(c) {
        ghost var display0, order0 := display, order;
        display := display + [c];
        order := order + [c];
        ChannelPushed(Pinned(chans), chans, i, display0, order0, display, order);
      } else {
        ChannelSkipped(Pinned(chans), chans, i, order);
      }
    }
    if order == [] {
      ghost var display0, order0 := display, order;
      display := display + ["Main"];
      order := order + ["main"];
      FallBackToMain(chans, display0, order0, display, order);
    } else {
      ChannelsListed(chans, display, order);
    }
  }

  /** After the last channel, an empty order (no channel at all) falls back to "main", shown as "Main". */
  lemma {:induction false} FallBackToMain(chans: seq<string>, display0: seq<string>, order0: seq<string>,
                                          display: seq<string>, order: seq<string>)
    requires order0 == Pinned(chans) + OthersUpTo(chans, |chans|) && display0 == DisplayNames(order0)
    requires order0 == [] && order == order0 + ["main"] && display == display0 + ["Main"]
    ensures order == ChannelOrder(chans)
    ensures display == DisplayNames(order)
  {
    if chans != [] {
      OthersUpToMembers(chans, |chans|);
      assert false;
    }
    assert order[..0] == [];
  }

  /** After the last channel, a non-empty order is the channel order. */
  lemma {:induction false} ChannelsListed(chans: seq<string>, display: seq<string>, order: seq<string>)
    requires order == Pinned(chans) + OthersUpTo(chans, |chans|) && display == DisplayNames(order)
    requires order != []
    ensures order == ChannelOrder(chans)
    ensures display == DisplayNames(order)
  {
  }

  /** The two pushes before the loop list the pinned channels. */
  lemma {:induction false} PinnedFirst(chans: seq<string>, display: seq<string>, order: seq<string>)
    requires order == (if "main" in chans then ["main"] else []) + (if "localtunnel" in chans then ["localtunnel"] else [])
    requires display == (if "main" in chans then ["Main"] else []) + (if "localtunnel" in chans then ["LocalTunnel"] else [])
    ensures order == Pinned(chans) + OthersUpTo(chans, 0)
    ensures display == DisplayNames(order)
  {
    if "main" in chans && "localtunnel" in chans {
      assert order[..1] == ["main"];
    }
  }

  /** A channel that is not built in is pushed onto both lists. */
  lemma {:induction false} ChannelPushed(pinned: seq<string>, chans: seq<string>, i: nat,
                                         display0: seq<string>, order0: seq<string>,
                                         display: seq<string>, order: seq<string>)
    requires i < |chans| && !BuiltIn(chans[i])
    requires order0 == pinned + OthersUpTo(chans, i) && display0 == DisplayNames(order0)
    requires order == order0 + [chans[i]] && display == display0 + [chans[i]]
    ensures order == pinned + OthersUpTo(chans, i + 1)
    ensures display == DisplayNames(order)
  {
    assert order[..|order0|] == order0;
  }

  /** A built-in channel is skipped: it was pushed before the loop. */
  lemma {:induction false} ChannelSkipped(pinned: seq<string>, chans: seq<string>, i: nat, order: seq<string>)
    requires i < |chans| && BuiltIn(chans[i])
    requires order == pinned + OthersUpTo(chans, i)
    ensures order == pinned + OthersUpTo(chans, i + 1)
  {
  }

}
