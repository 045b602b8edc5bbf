/**
 Layout of the mixer controls (plugins/tinyalsa/src/agm_mixer_plugin.c): name tables sized by one loop and
 filled by another, and a control table sized from the tables of control names and filled by forming
 functions that spell out the controls they create.
 */
module Mixer {
  import opened Arithmetic
  import opened Common

  // ---------------------------------------------------------------- device tables

  /** A PCM or compress node of the card: its id, whether it has a name, and one direction property, if present. */
  datatype Node = Node(id: int, named: bool, prop: Option<int>)

  /** The property variable after these nodes: a node without the property leaves it alone. */
  function Val(nodes: seq<Node>): int {
    if nodes == [] then 0
    else if nodes[|nodes| - 1].prop.Some? then nodes[|nodes| - 1].prop.value
    else Val(nodes[..|nodes| - 1])
  }

  /** Nodes the counting loop counts. */
  function Counted(nodes: seq<Node>): nat {
    if nodes == [] then 0 else Counted(nodes[..|nodes| - 1]) + if Val(nodes) == 1 then 1 else 0
  }

  /** Ids the filling loop writes behind the leading ZERO entry. */
  function Listed(nodes: seq<Node>): seq<int> {
    if nodes == [] then []
    else Listed(nodes[..|nodes| - 1]) + if Val(nodes) == 0 then [] else [nodes[|nodes| - 1].id]
  }

  /** Every node the filling loop lists has a name. */
  predicate ListedAreNamed(nodes: seq<Node>) {
    nodes == [] || (ListedAreNamed(nodes[..|nodes| - 1]) && (Val(nodes) == 0 || nodes[|nodes| - 1].named))
  }

  /** How many of the nodes have a property that is not zero, their own or repeated. */
  function Nonzero(nodes: seq<Node>): nat {
    if nodes == [] then 0 else Nonzero(nodes[..|nodes| - 1]) + if Val(nodes) == 0 then 0 else 1
  }

  /** The property of node `i` is the last one present up to it, or zero. */
  lemma {:induction false} ValIsLastPresent(nodes: seq<Node>, i: nat, j: nat)
    requires j <= i < |nodes| && nodes[j].prop.Some? && forall k | j < k <= i :: nodes[k].prop.None?
    ensures Val(nodes[..i + 1]) == nodes[j].prop.value
  {
    assert nodes[..i + 1][..i] == nodes[..i];
    if j < i {
      ValIsLastPresent(nodes, i - 1, j);
    }
  }

  /** The table lists the nodes with a property that is not zero, each behind those before it, and nothing else. */
  lemma {:induction false} ListedInOrder(nodes: seq<Node>, i: nat)
    requires i < |nodes| && Val(nodes[..i + 1]) != 0
    ensures |Listed(nodes)| == Nonzero(nodes) > Nonzero(nodes[..i]) && Listed(nodes)[Nonzero(nodes[..i])] == nodes[i].id
  {
    ListedCount(nodes);
    var n := |nodes| - 1;
    if i < n {
      assert nodes[..n][..i + 1] == nodes[..i + 1] && nodes[..n][..i] == nodes[..i];
      ListedInOrder(nodes[..n], i);
    } else {
      assert nodes[..i + 1] == nodes;
      ListedCount(nodes[..n]);
    }
  }

  lemma {:induction false} ListedCount(nodes: seq<Node>)
    ensures |Listed(nodes)| == Nonzero(nodes)
  {
    if nodes != [] {
      ListedCount(nodes[..|nodes| - 1]);
    }
  }

  predicate Binary(nodes: seq<Node>) {
    forall i | 0 <= i < |nodes| :: nodes[i].prop.Some? ==> nodes[i].prop.value == 0 || nodes[i].prop.value == 1
  }

  lemma {:induction false} BinaryVal(nodes: seq<Node>)
    requires Binary(nodes)
    ensures Val(nodes) == 0 || Val(nodes) == 1
  {
    if nodes != [] {
      BinaryVal(nodes[..|nodes| - 1]);
    }
  }

  /** The filling loop stays inside the allocation, and then fills it exactly, if and only if the property is 0 or 1 wherever present. */
  lemma {:induction false} NamesFit(nodes: seq<Node>)
    ensures |Listed(nodes)| >= Counted(nodes)
    ensures |Listed(nodes)| <= Counted(nodes) <==> Binary(nodes)
  {
    if nodes != [] {
      var n := |nodes| - 1;
      NamesFit(nodes[..n]);
      assert forall i | 0 <= i < n :: nodes[..n][i] == nodes[i];
      assert Binary(nodes) ==> Binary(nodes[..n]);
      if Binary(nodes) {
        BinaryVal(nodes);
      } else if Binary(nodes[..n]) {
        assert nodes[n].prop.Some?;
      }
    }
  }

  /** The counting loop of amp_get_pcm_info. */
  method CountNodes(nodes: seq<Node>) returns (count: nat)
    ensures count == Counted(nodes)
  {
    count := 0;
    var val := 0;
    for i := 0 to |nodes|
      invariant count == Counted(nodes[..i]) && val == Val(nodes[..i])
    {
      assert nodes[..i + 1][..i] == nodes[..i];
      if nodes[i].prop.Some? {
        val := nodes[i].prop.value;
      }
      if val == 1 {
        count := count + 1;
      }
    }
    assert nodes[..|nodes|] == nodes;
  }

  /**
   amp_create_pcm_info_from_card, into a table of one entry more than was counted: it fails exactly if a
   listed node has no name, and otherwise fills the table to its last entry.
   */
  method FillNames(nodes: seq<Node>) returns (ret: Status, table: array<int>, count: nat)
    requires Binary(nodes)
    ensures ret == if ListedAreNamed(nodes) then Ok else Invalid
    ensures ret.Ok? ==> count == table.Length && table[..] == [0] + Listed(nodes)
  {
    NamesFit(nodes);
    var n := CountNodes(nodes);
    table := new int[n + 1](_ => 0);
    table[0] := 0;
    count := 1;
    var val := 0;
    for i := 0 to |nodes|
      invariant count == 1 + |Listed(nodes[..i])| <= table.Length && val == Val(nodes[..i])
      invariant table[..count] == [0] + Listed(nodes[..i]) && ListedAreNamed(nodes[..i])
    {
      assert nodes[..i + 1][..i] == nodes[..i];
      if nodes[i].prop.Some? {
        val := nodes[i].prop.value;
      }
      if val != 0 {
        if !nodes[i].named {
          NamedPrefix(nodes, i + 1);
          return Invalid, table, count;
        }
        ListedGrows(nodes, i);
        table[count] := nodes[i].id;
        count := count + 1;
      }
    }
    ret := Ok;
    assert nodes[..|nodes|] == nodes && table[..count] == table[..];
  }

  lemma {:induction false} NamedPrefix(nodes: seq<Node>, k: nat)
    requires k <= |nodes|
    ensures ListedAreNamed(nodes) ==> ListedAreNamed(nodes[..k])
  {
    if k == |nodes| {
      assert nodes[..k] == nodes;
    } else {
      NamedPrefix(nodes[..|nodes| - 1], k);
      assert nodes[..|nodes| - 1][..k] == nodes[..k];
    }
  }

  /** There is room for a node that is listed. */
  lemma {:induction false} ListedGrows(nodes: seq<Node>, i: nat)
    requires i < |nodes| && Val(nodes[..i + 1]) != 0
    ensures |Listed(nodes[..i])| < |Listed(nodes)|
  {
    var n := |nodes| - 1;
    if i < n {
      assert nodes[..n][..i + 1] == nodes[..i + 1];
      ListedGrows(nodes[..n], i);
      assert nodes[..n][..i] == nodes[..i];
    } else {
      assert nodes[..i + 1] == nodes;
    }
  }

  // ---------------------------------------------------------------- names and counts

  datatype Kind =
    | MediaConfig | BeMetadata | BeSetParam
    | GroupConfig
    | Connect | Disconnect | MtdControl | PcmMetadata | SetParam | SetParamTag | SetParamTagAcdb
    | GetTaggedInfo | Event | SetCalibration | GetParam | GetBufInfo
    | Sidetone | DatapathParams | Flush
    | Loopback | EchoReference | BufTimestamp
    | AcdbTunnel

  /** The tables of control name suffixes, whose sizes the count functions use. */
  const BE_NAMES := [MediaConfig, BeMetadata, BeSetParam]
  const GROUP_NAMES := [GroupConfig]
  const PCM_NAMES := [Connect, Disconnect, MtdControl, PcmMetadata, SetParam, SetParamTag, SetParamTagAcdb,
                      GetTaggedInfo, Event, SetCalibration, GetParam, GetBufInfo]
  const RX_NAMES := [Sidetone, DatapathParams, Flush]
  const TX_NAMES := [Loopback, EchoReference, BufTimestamp]

  /** A control: its name suffix, the position of its device in the device table, and its private value. */
  datatype Ctl = Ctl(kind: Kind, device: nat, value: int)

  /** Device tables of a card as arrays of ids; all but the groups start with the ZERO entry. */
  datatype Card = Card(rxBe: seq<int>, txBe: seq<int>, groups: seq<int>, rxPcm: seq<int>, txPcm: seq<int>)

  predicate ValidCard(c: Card) {
    |c.rxBe| > 0 && |c.txBe| > 0 && |c.rxPcm| > 0 && |c.txPcm| > 0
  }

  /** amp_get_be_ctl_count, amp_get_group_be_ctl_count and amp_get_pcm_ctl_count. */
  function BeCount(c: Card): int {
    (|c.rxBe| - 1) * |BE_NAMES| + (|c.txBe| - 1) * |BE_NAMES|
  }

  function GroupCount(c: Card): int {
    |c.groups| * |GROUP_NAMES|
  }

  function PcmCount(c: Card): int {
    (|c.rxPcm| - 1) * |PCM_NAMES| + (|c.txPcm| - 1) * |PCM_NAMES|
    + (|c.txPcm| - 1) * |TX_NAMES| + (|c.rxPcm| - 1) * |RX_NAMES|
  }

  // ---------------------------------------------------------------- the layout the names ask for

  /** The private value is the device's id, except where the callbacks index per-device arrays with it. */
  function ValueFor(kind: Kind, device: nat, id: int): int {
    if kind.MtdControl? || kind.GetParam? then device else id
  }

  /** One control for each name. */
  function ForOne(device: nat, id: int, names: seq<Kind>): (s: seq<Ctl>)
    ensures |s| == |names| && forall j | 0 <= j < |s| :: s[j] == Ctl(names[j], device, ValueFor(names[j], device, id))
  {
    seq(|names|, j requires 0 <= j < |names| => Ctl(names[j], device, ValueFor(names[j], device, id)))
  }

  /** One control for each name of every device at positions `from` to `to`, device by device. */
  function Block(devs: seq<int>, from: nat, to: nat, names: seq<Kind>): (s: seq<Ctl>)
    requires from <= to <= |devs|
    ensures |s| == Times(to - from, |names|)
  {
    if from == to then [] else Block(devs, from, to - 1, names) + ForOne(to - 1, devs[to - 1], names)
  }

  /** The block of a table that starts with the ZERO entry. */
  function After0(devs: seq<int>, names: seq<Kind>): (s: seq<Ctl>)
    requires |devs| > 0
    ensures |s| == Times(|devs| - 1, |names|)
  {
    Block(devs, 1, |devs|, names)
  }

  function BeLayout(c: Card): seq<Ctl>
    requires ValidCard(c)
  {
    After0(c.rxBe, BE_NAMES) + After0(c.txBe, BE_NAMES)
  }

  function GroupLayout(c: Card): seq<Ctl> {
    Block(c.groups, 0, |c.groups|, GROUP_NAMES)
  }

  function RxLayout(c: Card): seq<Ctl>
    requires ValidCard(c)
  {
    After0(c.rxPcm, PCM_NAMES) + After0(c.rxPcm, RX_NAMES)
  }

  function TxLayout(c: Card): seq<Ctl>
    requires ValidCard(c)
  {
    After0(c.txPcm, PCM_NAMES) + After0(c.txPcm, TX_NAMES)
  }

  /** Every control of a card, in slot order. */
  function Layout(c: Card): seq<Ctl>
    requires ValidCard(c)
  {
    BeLayout(c) + GroupLayout(c) + RxLayout(c) + TxLayout(c) + [Ctl(AcdbTunnel, 0, 0)]
  }

  /** What the count functions count is what the names ask for, block by block. */
  lemma CountsMatchLayout(c: Card)
    requires ValidCard(c)
    ensures BeCount(c) == |BeLayout(c)|
    ensures GroupCount(c) == |GroupLayout(c)|
    ensures PcmCount(c) == |RxLayout(c)| + |TxLayout(c)|
  {
    TimesIs(|c.rxBe| - 1, 3);
    TimesIs(|c.txBe| - 1, 3);
    TimesIs(|c.groups|, 1);
    TimesIs(|c.rxPcm| - 1, 12);
    TimesIs(|c.txPcm| - 1, 12);
    TimesIs(|c.rxPcm| - 1, 3);
    TimesIs(|c.txPcm| - 1, 3);
  }

  // ---------------------------------------------------------------- the control table

  /** The control array of the plugin, with how often each slot was written. */
  class ControlTable {
    const ctls: array<Ctl>
    const writes: array<nat>
    ghost var formed: seq<Ctl>

    /** The first slots hold what was formed, each written once; the others were not written. */
    ghost predicate Valid()
      reads this, ctls, writes
    {
      && writes.Length == ctls.Length && |formed| <= ctls.Length && ctls[..|formed|] == formed
      && forall i | 0 <= i < writes.Length :: writes[i] == if i < |formed| then 1 else 0
    }

    ghost predicate Room(n: nat)
      reads this
    {
      |formed| + n <= ctls.Length
    }

    constructor (total: nat)
      ensures fresh(ctls) && fresh(writes) && ctls.Length == total && Valid() && formed == []
    {
      ctls := new Ctl[total](_ => Ctl(AcdbTunnel, 0, 0));
      writes := new nat[total](_ => 0);
      formed := [];
    }

    /** One amp_create_*_ctl. */
    method Create(idx: nat, kind: Kind, device: nat, value: int)
      requires Valid() && idx == |formed| && Room(1)
      modifies this`formed, ctls, writes
      ensures Valid() && formed == old(formed) + [Ctl(kind, device, value)]
    {
      ctls[idx] := Ctl(kind, device, value);
      writes[idx] := writes[idx] + 1;
      formed := formed + [Ctl(kind, device, value)];
    }

    /** One round of amp_form_be_ctls. */
    method FormBeOne(idx: nat, i: nat, id: int) returns (next: nat)
      requires Valid() && idx == |formed| && Room(|BE_NAMES|)
      modifies this`formed, ctls, writes
      ensures Valid() && formed == old(formed) + ForOne(i, id, BE_NAMES) && next == |formed|
    {
      next := idx;
      Create(next, MediaConfig, i, id);
      next := next + 1;
      Create(next, BeMetadata, i, id);
      next := next + 1;
      Create(next, BeSetParam, i, id);
      next := next + 1;
    }

    /** One of the two loops of amp_form_be_ctls. */
    method FormBe(idx: nat, devs: seq<int>) returns (next: nat)
      requires Valid() && idx == |formed| && |devs| > 0 && Room(|After0(devs, BE_NAMES)|)
      modifies this`formed, ctls, writes
      ensures Valid() && formed == old(formed) + After0(devs, BE_NAMES) && next == |formed|
    {
      next := idx;
      for i := 1 to |devs|
        invariant Valid() && formed == old(formed) + Block(devs, 1, i, BE_NAMES) && next == |formed|
      {
        TimesAdds(i, |devs| - i - 1, |BE_NAMES|);
        next := FormBeOne(next, i, devs[i]);
      }
    }

    /** amp_form_group_be_ctls. */
    method FormGroups(idx: nat, devs: seq<int>)
      requires Valid() && idx == |formed| && Room(|Block(devs, 0, |devs|, GROUP_NAMES)|)
      modifies this`formed, ctls, writes
      ensures Valid() && formed == old(formed) + Block(devs, 0, |devs|, GROUP_NAMES)
    {
      var next := idx;
      for i := 0 to |devs|
        invariant Valid() && formed == old(formed) + Block(devs, 0, i, GROUP_NAMES) && next == |formed|
      {
        TimesAdds(i + 1, |devs| - i - 1, |GROUP_NAMES|);
        Create(next, GroupConfig, i, devs[i]);
        next := next + 1;
      }
    }

    /** The routing controls of a PCM: the first four of amp_form_common_pcm_ctls. */
    method FormRouting(idx: nat, i: nat, id: int)
      requires Valid() && idx == |formed| && Room(4)
      modifies this`formed, ctls, writes
      ensures Valid()
      ensures formed == old(formed) + [Ctl(Connect, i, id), Ctl(Disconnect, i, id), Ctl(MtdControl, i, i), Ctl(PcmMetadata, i, id)]
    {
      Create(idx, Connect, i, id);
      Create(idx + 1, Disconnect, i, id);
      Create(idx + 2, MtdControl, i, i);
      Create(idx + 3, PcmMetadata, i, id);
    }

    /** Its parameter controls: the next four. */
    method FormParams(idx: nat, i: nat, id: int)
      requires Valid() && idx == |formed| && Room(4)
      modifies this`formed, ctls, writes
      ensures Valid()
      ensures formed == old(formed) + [Ctl(SetParam, i, id), Ctl(SetParamTag, i, id), Ctl(SetParamTagAcdb, i, id), Ctl(GetTaggedInfo, i, id)]
    {
      Create(idx, SetParam, i, id);
      Create(idx + 1, SetParamTag, i, id);
      Create(idx + 2, SetParamTagAcdb, i, id);
      Create(idx + 3, GetTaggedInfo, i, id);
    }

    /** Its remaining controls: the last four. */
    method FormQueries(idx: nat, i: nat, id: int)
      requires Valid() && idx == |formed| && Room(4)
      modifies this`formed, ctls, writes
      ensures Valid()
      ensures formed == old(formed) + [Ctl(Event, i, id), Ctl(SetCalibration, i, id), Ctl(GetParam, i, i), Ctl(GetBufInfo, i, id)]
    {
      Create(idx, Event, i, id);
      Create(idx + 1, SetCalibration, i, id);
      Create(idx + 2, GetParam, i, i);
      Create(idx + 3, GetBufInfo, i, id);
    }

    /** One round of amp_form_common_pcm_ctls. */
    method FormCommonOne(idx: nat, i: nat, id: int) returns (next: nat)
      requires Valid() && idx == |formed| && Room(|PCM_NAMES|)
      modifies this`formed, ctls, writes
      ensures Valid() && formed == old(formed) + ForOne(i, id, PCM_NAMES) && next == |formed|
    {
      FormRouting(idx, i, id);
      FormParams(idx + 4, i, id);
      FormQueries(idx + 8, i, id);
      next := idx + 12;
    }

    /** amp_form_common_pcm_ctls: its two allocations come before any control. */
    method FormCommonPcm(idx: nat, devs: seq<int>, memFails: bool) returns (ret: Status, next: nat)
      requires Valid() && idx == |formed| && |devs| > 0 && Room(|After0(devs, PCM_NAMES)|)
      modifies this`formed, ctls, writes
      ensures Valid() && next == |formed| && ret == (if memFails then NoMem else Ok)
      ensures formed == old(formed) + (if ret.Ok? then After0(devs, PCM_NAMES) else [])
    {
      if memFails {
        return NoMem, idx;
      }
      ret, next := Ok, idx;
      for i := 1 to |devs|
        invariant Valid() && formed == old(formed) + Block(devs, 1, i, PCM_NAMES) && next == |formed|
      {
        TimesAdds(i, |devs| - i - 1, |PCM_NAMES|);
        next := FormCommonOne(next, i, devs[i]);
      }
    }

    /** One round of amp_form_rx_pcm_ctls. */
    method FormRxOne(idx: nat, i: nat, id: int) returns (next: nat)
      requires Valid() && idx == |formed| && Room(|RX_NAMES|)
      modifies this`formed, ctls, writes
      ensures Valid() && formed == old(formed) + ForOne(i, id, RX_NAMES) && next == |formed|
    {
      Create(idx, Sidetone, i, id);
      Create(idx + 1, DatapathParams, i, id);
      Create(idx + 2, Flush, i, id);
      next := idx + 3;
    }

    /** amp_form_rx_pcm_ctls. */
    method FormRx(idx: nat, devs: seq<int>) returns (next: nat)
      requires Valid() && idx == |formed| && |devs| > 0 && Room(|After0(devs, RX_NAMES)|)
      modifies this`formed, ctls, writes
      ensures Valid() && formed == old(formed) + After0(devs, RX_NAMES) && next == |formed|
    {
      next := idx;
      for i := 1 to |devs|
        invariant Valid() && formed == old(formed) + Block(devs, 1, i, RX_NAMES) && next == |formed|
      {
        TimesAdds(i, |devs| - i - 1, |RX_NAMES|);
        next := FormRxOne(next, i, devs[i]);
      }
    }

    /** One round of amp_form_tx_pcm_ctls. */
    method FormTxOne(idx: nat, i: nat, id: int) returns (next: nat)
      requires Valid() && idx == |formed| && Room(|TX_NAMES|)
      modifies this`formed, ctls, writes
      ensures Valid() && formed == old(formed) + ForOne(i, id, TX_NAMES) && next == |formed|
    {
      Create(idx, Loopback, i, id);
      Create(idx + 1, EchoReference, i, id);
      Create(idx + 2, BufTimestamp, i, id);
      next := idx + 3;
    }

    /** amp_form_tx_pcm_ctls. */
    method FormTx(idx: nat, devs: seq<int>) returns (next: nat)
      requires Valid() && idx == |formed| && |devs| > 0 && Room(|After0(devs, TX_NAMES)|)
      modifies this`formed, ctls, writes
      ensures Valid() && formed == old(formed) + After0(devs, TX_NAMES) && next == |formed|
    {
      next := idx;
      for i := 1 to |devs|
        invariant Valid() && formed == old(formed) + Block(devs, 1, i, TX_NAMES) && next == |formed|
      {
        TimesAdds(i, |devs| - i - 1, |TX_NAMES|);
        next := FormTxOne(next, i, devs[i]);
      }
    }

    /** The playback half of amp_form_pcm_ctls. */
    method FormPlayback(idx: nat, c: Card, memFails: bool) returns (ret: Status, next: nat)
      requires Valid() && idx == |formed| && ValidCard(c) && Room(|RxLayout(c)|)
      modifies this`formed, ctls, writes
      ensures Valid() && next == |formed| && ret == (if memFails then NoMem else Ok)
      ensures formed == old(formed) + (if ret.Ok? then RxLayout(c) else [])
    {
      ret, next := FormCommonPcm(idx, c.rxPcm, memFails);
      if ret.Ok? {
        next := FormRx(next, c.rxPcm);
      }
    }

    /** The capture half. */
    method FormCapture(idx: nat, c: Card, memFails: bool) returns (ret: Status)
      requires Valid() && idx == |formed| && ValidCard(c) && Room(|TxLayout(c)|)
      modifies this`formed, ctls, writes
      ensures Valid() && ret == (if memFails then NoMem else Ok)
      ensures formed == old(formed) + (if ret.Ok? then TxLayout(c) else [])
    {
      var next;
      ret, next := FormCommonPcm(idx, c.txPcm, memFails);
      if ret.Ok? {
        next := FormTx(next, c.txPcm);
      }
    }

    /** amp_form_pcm_ctls: all its controls, or those before the allocation that failed. */
    method FormPcm(idx: nat, c: Card, rxMemFails: bool, txMemFails: bool) returns (ret: Status)
      requires Valid() && idx == |formed| && ValidCard(c) && Room(|RxLayout(c)| + |TxLayout(c)|)
      modifies this`formed, ctls, writes
      ensures Valid() && ret == (if rxMemFails || txMemFails then NoMem else Ok)
      ensures formed == old(formed) + (if rxMemFails then [] else RxLayout(c)) + (if ret.Ok? then TxLayout(c) else [])
    {
      var next;
      ret, next := FormPlayback(idx, c, rxMemFails);
      if ret.Ok? {
        ret := FormCapture(next, c, txMemFails);
      }
    }

    /** amp_form_be_ctls, then amp_form_group_be_ctls if there are groups. */
    method FormBackends(c: Card)
      requires Valid() && formed == [] && ValidCard(c) && Room(|BeLayout(c)| + |GroupLayout(c)|)
      modifies this`formed, ctls, writes
      ensures Valid() && formed == BeLayout(c) + GroupLayout(c)
    {
      CountsMatchLayout(c);
      var next := FormBe(0, c.rxBe);
      next := FormBe(next, c.txBe);
      if GroupCount(c) != 0 {
        FormGroups(BeCount(c), c.groups);
      }
    }
  }

  /**
   The sizing and forming part of the plugin's open.  The table sized from the name tables is filled to its
   last slot, each slot written exactly once, unless an allocation fails; then only a prefix is filled.
   */
  method FormControls(c: Card, rxMemFails: bool, txMemFails: bool) returns (ret: Status, t: ControlTable)
    requires ValidCard(c)
    ensures t.Valid() && t.ctls.Length == |Layout(c)| && ret == (if rxMemFails || txMemFails then NoMem else Ok)
    ensures t.formed <= Layout(c) && (ret.Ok? <==> t.formed == Layout(c))
  {
    CountsMatchLayout(c);
    var be, grp, pcm := BeCount(c), GroupCount(c), PcmCount(c);
    t := new ControlTable(be + grp + pcm + 1);
    t.FormBackends(c);
    ret := t.FormPcm(be + grp, c, rxMemFails, txMemFails);
    if ret.Ok? {
      assert t.formed == BeLayout(c) + GroupLayout(c) + RxLayout(c) + TxLayout(c);
      t.Create(be + grp + pcm, AcdbTunnel, 0, 0);
    }
  }
}
