/** The tables a call keeps about its streams: the SSRC table that gates packet delivery,
    the audio/video sync groups, and which send stream an audio receive stream reports
    through. Streams are named by address; sets of them are visited in address order.
 */
module CallMachine {
  import opened Options

  type Address = int
  type Ssrc = int

  /** A receive stream's configuration. `rtx == 0` means no retransmission stream, and only
      video streams have one; `header` stands for the extensions to identify. */
  datatype Receiver = Receiver(
    address: Address, remote: Ssrc, rtx: Ssrc, local: Ssrc, group: string, header: int)

  datatype State = State(
    audio: seq<Receiver>,
    video: seq<Receiver>,
    flexfec: seq<Receiver>,
    table: map<Ssrc, int>,
    mapping: map<string, Address>,
    syncedTo: map<Address, Option<Address>>,
    sends: map<Ssrc, Address>,
    associated: map<Address, Option<Address>>)

  const INITIAL := State([], [], [], map[], map[], map[], map[], map[])

  datatype Event =
    | AudioCreated(r: Receiver)
    | AudioDestroyed(r: Receiver)
    | VideoCreated(r: Receiver)
    | VideoDestroyed(r: Receiver)
    | FlexfecCreated(r: Receiver)
    | FlexfecDestroyed(r: Receiver)
    | SendCreated(ssrc: Ssrc, address: Address)
    | SendDestroyed(ssrc: Ssrc)

  // ---------- sets in address order ----------

  ghost predicate Ascending(rs: seq<Receiver>) {
    forall i, j :: 0 <= i < j < |rs| ==> rs[i].address < rs[j].address
  }

  ghost predicate HasAddress(rs: seq<Receiver>, address: Address) {
    exists i :: 0 <= i < |rs| && rs[i].address == address
  }

  function Insert(r: Receiver, rs: seq<Receiver>): seq<Receiver> {
    if rs == [] || r.address < rs[0].address then [r] + rs else [rs[0]] + Insert(r, rs[1..])
  }

  function Remove(r: Receiver, rs: seq<Receiver>): seq<Receiver> {
    if rs == [] then [] else if rs[0] == r then rs[1..] else [rs[0]] + Remove(r, rs[1..])
  }

  lemma {:induction false} InsertMembers(r: Receiver, rs: seq<Receiver>)
    ensures forall x :: x in Insert(r, rs) <==> x == r || x in rs
  {
    if rs != [] && !(r.address < rs[0].address) {
      InsertMembers(r, rs[1..]);
      assert rs == [rs[0]] + rs[1..];
    }
  }

  lemma {:induction false} InsertAscending(r: Receiver, rs: seq<Receiver>)
    requires Ascending(rs) && !HasAddress(rs, r.address)
    ensures Ascending(Insert(r, rs))
  {
    if rs != [] && !(r.address < rs[0].address) {
      assert rs[0].address != r.address;
      assert forall i :: 0 <= i < |rs[1..]| ==> rs[1..][i] == rs[i + 1];
      InsertAscending(r, rs[1..]);
      InsertMembers(r, rs[1..]);
      var rest := Insert(r, rs[1..]);
      forall j | 0 <= j < |rest| ensures rs[0].address < rest[j].address {
        assert rest[j] in rest;
      }
    }
  }

  lemma {:induction false} RemoveMembers(r: Receiver, rs: seq<Receiver>)
    requires Ascending(rs)
    ensures forall x :: x in Remove(r, rs) <==> x in rs && x != r
    ensures Ascending(Remove(r, rs))
  {
    if rs != [] {
      assert rs == [rs[0]] + rs[1..];
      if rs[0] != r {
        RemoveMembers(r, rs[1..]);
        var rest := Remove(r, rs[1..]);
        forall j | 0 <= j < |rest| ensures rs[0].address < rest[j].address {
          assert rest[j] in rest;
        }
      }
    }
  }

  // ---------- sync groups ----------

  /** The first stream of a group, in address order. */
  function First(rs: seq<Receiver>, group: string): (a: Option<Address>)
    ensures a == None <==> forall i :: 0 <= i < |rs| ==> rs[i].group != group
    ensures a.Some? ==> exists i :: 0 <= i < |rs| && rs[i].group == group && rs[i].address == a.value
  {
    if rs == [] then None
    else if rs[0].group == group then Some(rs[0].address)
    else
      assert forall i :: 0 < i < |rs| ==> rs[i] == rs[1..][i - 1];
      First(rs[1..], group)
  }

  /** The first stream of a group is the one with the lowest address. */
  lemma {:induction false} FirstLowest(rs: seq<Receiver>, group: string, r: Receiver)
    requires Ascending(rs) && r in rs && r.group == group
    ensures First(rs, group).Some? && First(rs, group).value <= r.address
  {
    var i :| 0 <= i < |rs| && rs[i] == r;
    if rs[0].group != group {
      assert rs[1..][i - 1] == r;
      FirstLowest(rs[1..], group, r);
    }
  }

  /** The first video stream of the group gets `target`, the others nothing. */
  function Reassign(
    videos: seq<Receiver>, group: string, target: Option<Address>, synced: map<Address, Option<Address>>)
    : map<Address, Option<Address>>
  {
    if videos == [] then synced
    else if videos[0].group == group then
      Reassign(videos[1..], group, None, synced[videos[0].address := target])
    else Reassign(videos[1..], group, target, synced)
  }

  function SyncTarget(c: State, group: string): Option<Address> {
    if group in c.mapping then Some(c.mapping[group]) else First(c.audio, group)
  }

  function ConfigureSync(c: State, group: string): State {
    if group == "" then c
    else
      var target := SyncTarget(c, group);
      c.(mapping := if target.Some? then c.mapping[group := target.value] else c.mapping,
         syncedTo := Reassign(c.video, group, target, c.syncedTo))
  }

  // ---------- transitions ----------

  function AddSsrcs(table: map<Ssrc, int>, r: Receiver): map<Ssrc, int> {
    (if r.rtx != 0 then table[r.rtx := r.header] else table)[r.remote := r.header]
  }

  function DropSsrcs(table: map<Ssrc, int>, r: Receiver): map<Ssrc, int> {
    table - Ssrcs(r)
  }

  function Ssrcs(r: Receiver): set<Ssrc> {
    {r.remote} + if r.rtx != 0 then {r.rtx} else {}
  }

  function SendFor(c: State, local: Ssrc): Option<Address> {
    if local in c.sends then Some(c.sends[local]) else None
  }

  /** Every audio receive stream reporting from `ssrc` now reports through `send`. */
  function Associate(
    audio: seq<Receiver>, ssrc: Ssrc, send: Option<Address>, associated: map<Address, Option<Address>>)
    : map<Address, Option<Address>>
  {
    if audio == [] then associated
    else
      Associate(audio[1..], ssrc, send,
                if audio[0].local == ssrc then associated[audio[0].address := send] else associated)
  }

  /** The state in which a destroyed audio stream's group is configured again. */
  function WithoutAudio(c: State, r: Receiver): State {
    c.(audio := Remove(r, c.audio), mapping := if HoldsGroup(c, r) then c.mapping - {r.group} else c.mapping)
  }

  predicate HoldsGroup(c: State, r: Receiver) {
    r.group in c.mapping && c.mapping[r.group] == r.address
  }

  /** The group of a destroyed audio stream is configured again if it held the stream. */
  function WithoutAudioSynced(c: State, r: Receiver): State {
    if HoldsGroup(c, r) then ConfigureSync(WithoutAudio(c, r), r.group) else WithoutAudio(c, r)
  }

  function WithAudio(c: State, r: Receiver): State {
    c.(table := c.table[r.remote := r.header], audio := Insert(r, c.audio))
  }

  function WithVideo(c: State, r: Receiver): State {
    c.(table := AddSsrcs(c.table, r), video := Insert(r, c.video), syncedTo := c.syncedTo[r.address := None])
  }

  function WithoutVideo(c: State, r: Receiver): State {
    c.(table := DropSsrcs(c.table, r), video := Remove(r, c.video), syncedTo := c.syncedTo - {r.address})
  }

  function Step(c: State, e: Event): State {
    match e
    case AudioCreated(r) =>
      ConfigureSync(WithAudio(c, r), r.group)
      .(associated := c.associated[r.address := SendFor(c, r.local)])
    case AudioDestroyed(r) =>
      WithoutAudioSynced(c, r)
      .(table := c.table - {r.remote}, associated := c.associated - {r.address})
    case VideoCreated(r) =>
      ConfigureSync(WithVideo(c, r), r.group)
    case VideoDestroyed(r) =>
      ConfigureSync(WithoutVideo(c, r), r.group)
    case FlexfecCreated(r) =>
      c.(table := c.table[r.remote := r.header], flexfec := Insert(r, c.flexfec))
    case FlexfecDestroyed(r) =>
      c.(table := c.table - {r.remote}, flexfec := Remove(r, c.flexfec))
    case SendCreated(ssrc, address) =>
      c.(sends := c.sends[ssrc := address], associated := Associate(c.audio, ssrc, Some(address), c.associated))
    case SendDestroyed(ssrc) =>
      c.(sends := c.sends - {ssrc}, associated := Associate(c.audio, ssrc, None, c.associated))
  }

  /** Creating uses a new address, destroying names a live stream; an audio send stream
      and a FlexFEC stream may not take an SSRC that is in use. */
  ghost predicate Enabled(c: State, e: Event) {
    match e
    case AudioCreated(r) => !HasAddress(c.audio, r.address) && r.rtx == 0
    case AudioDestroyed(r) => r in c.audio
    case VideoCreated(r) => !HasAddress(c.video, r.address)
    case VideoDestroyed(r) => r in c.video
    case FlexfecCreated(r) => !HasAddress(c.flexfec, r.address) && r.remote !in c.table && r.rtx == 0
    case FlexfecDestroyed(r) => r in c.flexfec
    case SendCreated(ssrc, _) => ssrc !in c.sends
    case SendDestroyed(ssrc) => ssrc in c.sends
  }

  /** Only video streams have a retransmission SSRC. */
  ghost predicate WithoutRtx(rs: seq<Receiver>) {
    forall r :: r in rs ==> r.rtx == 0
  }

  ghost predicate Shaped(c: State) {
    && Ascending(c.audio) && Ascending(c.video) && Ascending(c.flexfec)
    && WithoutRtx(c.audio) && WithoutRtx(c.flexfec)
  }

  lemma CreateKeepsShape(c: State, e: Event)
    requires Shaped(c) && Enabled(c, e) && (e.AudioCreated? || e.VideoCreated? || e.FlexfecCreated?)
    ensures Shaped(Step(c, e))
  {
    match e
    case AudioCreated(r) => InsertAscending(r, c.audio); InsertMembers(r, c.audio);
    case VideoCreated(r) => InsertAscending(r, c.video);
    case FlexfecCreated(r) => InsertAscending(r, c.flexfec); InsertMembers(r, c.flexfec);
  }

  lemma StepKeepsShape(c: State, e: Event)
    requires Shaped(c) && Enabled(c, e)
    ensures Shaped(Step(c, e))
  {
    match e
    case AudioDestroyed(r) => RemoveMembers(r, c.audio);
    case VideoDestroyed(r) => RemoveMembers(r, c.video);
    case FlexfecDestroyed(r) => RemoveMembers(r, c.flexfec);
    case SendCreated(_, _) =>
    case SendDestroyed(_) =>
    case _ => CreateKeepsShape(c, e);
  }

  // ---------- the sync invariant ----------

  ghost predicate LiveIn(rs: seq<Receiver>, group: string, address: Address) {
    exists r :: r in rs && r.group == group && r.address == address
  }

  ghost predicate Mapped(c: State, r: Receiver) {
    r.group != "" ==> r.group in c.mapping
  }

  /** A group is mapped to a live audio stream of that group, and every named group with a
      live audio stream is mapped; `except` is left out of the second part. */
  ghost predicate MappingLive(c: State, except: string) {
    && (forall g :: g in c.mapping ==> g != "" && LiveIn(c.audio, g, c.mapping[g]))
    && (forall r :: r in c.audio && r.group != except ==> Mapped(c, r))
  }

  /** What a video stream should be synced to: the first of its group to the group's audio. */
  function Expected(c: State, v: Receiver): Option<Address> {
    if v.group in c.mapping && First(c.video, v.group) == Some(v.address) then Some(c.mapping[v.group]) else None
  }

  ghost predicate SyncedAsExpected(c: State, v: Receiver) {
    v.address in c.syncedTo && c.syncedTo[v.address] == Expected(c, v)
  }

  /** Every video stream is synced as expected; streams of the group `except` need only
      have an entry. */
  ghost predicate Synced(c: State, except: string) {
    forall v :: v in c.video ==> v.address in c.syncedTo && (v.group != except ==> SyncedAsExpected(c, v))
  }

  /** The empty group does not sync: as an exception it stands for no group at all. */
  ghost predicate SyncValid(c: State) {
    && MappingLive(c, "")
    && Synced(c, "")
    && forall v :: v in c.video && v.group == "" ==> c.syncedTo[v.address] == None
  }

  ghost predicate NotInGroup(rs: seq<Receiver>, group: string, address: Address) {
    forall r :: r in rs && r.group == group ==> r.address != address
  }

  lemma {:induction false} ReassignMeaning(
    videos: seq<Receiver>, group: string, target: Option<Address>, synced: map<Address, Option<Address>>)
    requires Ascending(videos)
    ensures var after := Reassign(videos, group, target, synced);
            && synced.Keys <= after.Keys
            && (forall a :: a in synced && NotInGroup(videos, group, a) ==> after[a] == synced[a])
            && (forall i :: 0 <= i < |videos| && videos[i].group == group ==>
                  && videos[i].address in after
                  && after[videos[i].address]
                     == if First(videos, group) == Some(videos[i].address) then target else None)
  {
    if videos != [] {
      var v, rest := videos[0], videos[1..];
      var next, nextTarget :=
        if v.group == group then synced[v.address := target] else synced,
        if v.group == group then None else target;
      ReassignMeaning(rest, group, nextTarget, next);
      var after := Reassign(videos, group, target, synced);
      assert after == Reassign(rest, group, nextTarget, next);
      assert forall i :: 0 < i < |videos| ==> videos[i] == rest[i - 1];
      assert forall i :: 0 <= i < |rest| ==> rest[i] == videos[i + 1];
      assert forall i :: 0 <= i < |rest| ==> rest[i].address != v.address;
    }
  }

  /** ConfigureSync repairs the one group it is called for. */
  lemma ConfigureSyncRepairs(c: State, group: string)
    requires Shaped(c) && MappingLive(c, group) && Synced(c, group)
    requires forall v :: v in c.video && v.group == "" ==> c.syncedTo[v.address] == None
    ensures SyncValid(ConfigureSync(c, group))
  {
    if group != "" {
      ConfigureSyncMapping(c, group);
      ConfigureSyncVideos(c, group);
    }
  }

  lemma ConfigureSyncMapping(c: State, group: string)
    requires MappingLive(c, group) && group != ""
    ensures MappingLive(ConfigureSync(c, group), "")
  {
    var after, target := ConfigureSync(c, group), SyncTarget(c, group);
    if group !in c.mapping && target.Some? {
      var i :| 0 <= i < |c.audio| && c.audio[i].group == group && c.audio[i].address == target.value;
      assert c.audio[i] in c.audio;
      assert LiveIn(c.audio, group, target.value);
    }
    forall r | r in c.audio && r.group != "" ensures Mapped(after, r) {
      if r.group != group {
        assert Mapped(c, r);
      }
    }
  }

  /** One video stream after its group, or another, was configured. */
  lemma ReassignedAt(c: State, group: string, v: Receiver)
    requires Shaped(c) && group != "" && v in c.video && v.address in c.syncedTo
    ensures var after := ConfigureSync(c, group);
            && v.address in after.syncedTo
            && (v.group == group ==> SyncedAsExpected(after, v))
            && (v.group != group ==> after.syncedTo[v.address] == c.syncedTo[v.address])
  {
    ReassignMeaning(c.video, group, SyncTarget(c, group), c.syncedTo);
    var i :| 0 <= i < |c.video| && c.video[i] == v;
    if v.group != group {
      assert NotInGroup(c.video, group, v.address) by {
        AddressesUnique(c.video);
      }
    }
  }

  lemma ConfigureSyncVideos(c: State, group: string)
    requires Shaped(c) && Synced(c, group) && group != ""
    requires forall v :: v in c.video && v.group == "" ==> c.syncedTo[v.address] == None
    ensures var after := ConfigureSync(c, group);
            && Synced(after, "")
            && forall v :: v in c.video && v.group == "" ==> after.syncedTo[v.address] == None
  {
    var after := ConfigureSync(c, group);
    forall v | v in c.video
      ensures v.address in after.syncedTo
      ensures v.group != "" ==> SyncedAsExpected(after, v)
      ensures v.group == "" ==> after.syncedTo[v.address] == None
    {
      ReassignedAt(c, group, v);
      if v.group != group {
        assert SyncedAsExpected(c, v);
      }
    }
  }

  /** Adding or removing streams of one group does not move the first of another. */
  lemma {:induction false} FirstInsert(r: Receiver, rs: seq<Receiver>, group: string)
    requires r.group != group
    ensures First(Insert(r, rs), group) == First(rs, group)
  {
    if rs != [] && !(r.address < rs[0].address) {
      FirstInsert(r, rs[1..], group);
    } else {
      assert ([r] + rs)[1..] == rs;
    }
  }

  lemma {:induction false} FirstRemove(r: Receiver, rs: seq<Receiver>, group: string)
    requires r.group != group
    ensures First(Remove(r, rs), group) == First(rs, group)
  {
    if rs != [] && rs[0] != r {
      FirstRemove(r, rs[1..], group);
    }
  }

  lemma AddressesUnique(rs: seq<Receiver>)
    requires Ascending(rs)
    ensures forall x, y :: x in rs && y in rs && x.address == y.address ==> x == y
  {
    forall x, y | x in rs && y in rs && x.address == y.address ensures x == y {
      var i :| 0 <= i < |rs| && rs[i] == x;
      var j :| 0 <= j < |rs| && rs[j] == y;
      assert i == j || i < j || j < i;
    }
  }

  lemma AudioCreatedKeepsSync(c: State, r: Receiver)
    requires Shaped(c) && SyncValid(c) && Enabled(c, AudioCreated(r))
    ensures SyncValid(Step(c, AudioCreated(r)))
  {
    var c1 := WithAudio(c, r);
    InsertMembers(r, c.audio);
    InsertAscending(r, c.audio);
    forall g | g in c.mapping ensures LiveIn(c1.audio, g, c.mapping[g]) {
      assert LiveIn(c.audio, g, c.mapping[g]);
    }
    forall x | x in c1.audio && x.group != r.group ensures Mapped(c1, x) {
      assert x in c.audio;
      assert x.group != "" ==> Mapped(c, x);
    }
    assert forall v :: v in c.video && v.group != "" ==> SyncedAsExpected(c, v) && SyncedAsExpected(c1, v);
    assert forall v :: v in c.video && v.group == "" ==> SyncedAsExpected(c1, v);
    ConfigureSyncRepairs(c1, r.group);
    assert Step(c, AudioCreated(r)).mapping == ConfigureSync(c1, r.group).mapping;
    SyncFrame(ConfigureSync(c1, r.group), Step(c, AudioCreated(r)));
  }

  /** The sync invariant depends on nothing else. */
  lemma SyncFrame(a: State, b: State)
    requires SyncValid(a)
    requires a.audio == b.audio && a.video == b.video && a.mapping == b.mapping && a.syncedTo == b.syncedTo
    ensures SyncValid(b)
  {
    assert forall r :: Mapped(a, r) == Mapped(b, r);
    assert forall v :: SyncedAsExpected(a, v) == SyncedAsExpected(b, v);
  }

  lemma WithoutAudioMapping(c: State, r: Receiver)
    requires Shaped(c) && MappingLive(c, "") && r in c.audio
    ensures MappingLive(WithoutAudio(c, r), if HoldsGroup(c, r) then r.group else "")
  {
    var c1 := WithoutAudio(c, r);
    RemoveMembers(r, c.audio);
    forall g | g in c1.mapping ensures LiveIn(c1.audio, g, c1.mapping[g]) {
      assert LiveIn(c.audio, g, c.mapping[g]);
      var x :| x in c.audio && x.group == g && x.address == c.mapping[g];
      assert x in c1.audio;
    }
    forall x | x in c1.audio && x.group != "" && (HoldsGroup(c, r) ==> x.group != r.group) ensures Mapped(c1, x) {
      assert Mapped(c, x);
    }
  }

  lemma WithoutAudioVideos(c: State, r: Receiver)
    requires SyncValid(c)
    ensures Synced(WithoutAudio(c, r), if HoldsGroup(c, r) then r.group else "")
  {
    var c1 := WithoutAudio(c, r);
    forall v | v in c.video && v.group != "" && (HoldsGroup(c, r) ==> v.group != r.group)
      ensures SyncedAsExpected(c1, v)
    {
      assert SyncedAsExpected(c, v);
    }
    forall v | v in c.video && v.group == "" ensures SyncedAsExpected(c1, v) {
      assert v.address in c.syncedTo;
    }
  }

  lemma AudioDestroyedKeepsSync(c: State, r: Receiver)
    requires Shaped(c) && SyncValid(c) && r in c.audio
    ensures SyncValid(Step(c, AudioDestroyed(r)))
  {
    var c1 := WithoutAudio(c, r);
    RemoveMembers(r, c.audio);
    WithoutAudioMapping(c, r);
    WithoutAudioVideos(c, r);
    if HoldsGroup(c, r) {
      ConfigureSyncRepairs(c1, r.group);
      SyncFrame(ConfigureSync(c1, r.group), Step(c, AudioDestroyed(r)));
    } else {
      SyncFrame(c1, Step(c, AudioDestroyed(r)));
    }
  }

  /** What `v` is synced to is not affected by a stream of another group. */
  lemma OtherGroupAsExpected(c: State, c1: State, r: Receiver, v: Receiver)
    requires c1.mapping == c.mapping && (c1.video == Insert(r, c.video) || c1.video == Remove(r, c.video))
    requires v.group != r.group && v.address in c1.syncedTo && v.address in c.syncedTo
    requires c1.syncedTo[v.address] == c.syncedTo[v.address] == Expected(c, v)
    ensures SyncedAsExpected(c1, v)
  {
    FirstInsert(r, c.video, v.group);
    FirstRemove(r, c.video, v.group);
  }

  lemma ExpectedEverywhere(c: State, v: Receiver)
    requires SyncValid(c) && v in c.video
    ensures v.address in c.syncedTo && c.syncedTo[v.address] == Expected(c, v)
  {
    assert v.group != "" ==> SyncedAsExpected(c, v);
  }

  lemma VideoCreatedKeepsSync(c: State, r: Receiver)
    requires Shaped(c) && SyncValid(c) && Enabled(c, VideoCreated(r))
    ensures SyncValid(Step(c, VideoCreated(r)))
  {
    var c1 := WithVideo(c, r);
    InsertMembers(r, c.video);
    InsertAscending(r, c.video);
    assert MappingLive(c1, r.group) by {
      assert forall x :: Mapped(c, x) == Mapped(c1, x);
    }
    forall v | v in c.video
      ensures v.address in c1.syncedTo && c1.syncedTo[v.address] == c.syncedTo[v.address]
      ensures v.group != r.group ==> SyncedAsExpected(c1, v)
    {
      assert HasAddress(c.video, v.address);
      ExpectedEverywhere(c, v);
      if v.group != r.group {
        OtherGroupAsExpected(c, c1, r, v);
      }
    }
    ConfigureSyncRepairs(c1, r.group);
  }

  lemma VideoDestroyedKeepsSync(c: State, r: Receiver)
    requires Shaped(c) && SyncValid(c) && r in c.video
    ensures SyncValid(Step(c, VideoDestroyed(r)))
  {
    var c1 := WithoutVideo(c, r);
    RemoveMembers(r, c.video);
    AddressesUnique(c.video);
    assert MappingLive(c1, r.group) by {
      assert forall x :: Mapped(c, x) == Mapped(c1, x);
    }
    forall v | v in c1.video
      ensures v.address in c1.syncedTo && c1.syncedTo[v.address] == c.syncedTo[v.address]
      ensures v.group != r.group ==> SyncedAsExpected(c1, v)
    {
      ExpectedEverywhere(c, v);
      if v.group != r.group {
        OtherGroupAsExpected(c, c1, r, v);
      }
    }
    ConfigureSyncRepairs(c1, r.group);
  }

  /** Every creation and destruction keeps the sync invariant. */
  lemma StepKeepsSync(c: State, e: Event)
    requires Shaped(c) && SyncValid(c) && Enabled(c, e)
    ensures SyncValid(Step(c, e))
  {
    match e
    case AudioCreated(r) => AudioCreatedKeepsSync(c, r);
    case AudioDestroyed(r) => AudioDestroyedKeepsSync(c, r);
    case VideoCreated(r) => VideoCreatedKeepsSync(c, r);
    case VideoDestroyed(r) => VideoDestroyedKeepsSync(c, r);
    case _ => SyncFrame(c, Step(c, e));
  }

  /** No video stream refers to a destroyed audio stream, or to one of another group. */
  lemma NoDanglingSync(c: State, v: Receiver)
    requires SyncValid(c) && v in c.video
    ensures v.address in c.syncedTo
    ensures c.syncedTo[v.address].Some? ==> LiveIn(c.audio, v.group, c.syncedTo[v.address].value)
  {
    assert v.group != "" ==> SyncedAsExpected(c, v);
  }

  /** Sync assignment is sticky: a group changes its audio stream only when that stream goes. */
  lemma StepKeepsMapping(c: State, e: Event, group: string)
    requires group in c.mapping
    requires !(e.AudioDestroyed? && e.r.group == group && e.r.address == c.mapping[group])
    ensures group in Step(c, e).mapping && Step(c, e).mapping[group] == c.mapping[group]
  {
  }

  // ---------- audio send streams ----------

  /** Every audio receive stream reports through the send stream with its local SSRC. */
  ghost predicate AssociationsExact(c: State) {
    forall r :: r in c.audio ==> r.address in c.associated && c.associated[r.address] == SendFor(c, r.local)
  }

  lemma {:induction false} AssociateMeaning(
    audio: seq<Receiver>, ssrc: Ssrc, send: Option<Address>, associated: map<Address, Option<Address>>)
    requires Ascending(audio)
    ensures var after := Associate(audio, ssrc, send, associated);
            && associated.Keys <= after.Keys
            && (forall a :: a in associated && !HasAddress(audio, a) ==> after[a] == associated[a])
            && (forall i :: 0 <= i < |audio| && audio[i].local == ssrc ==>
                  audio[i].address in after && after[audio[i].address] == send)
            && (forall i :: 0 <= i < |audio| && audio[i].local != ssrc && audio[i].address in associated ==>
                  after[audio[i].address] == associated[audio[i].address])
  {
    if audio != [] {
      var r, rest := audio[0], audio[1..];
      var next := if r.local == ssrc then associated[r.address := send] else associated;
      AssociateMeaning(rest, ssrc, send, next);
      assert forall i :: 0 < i < |audio| ==> audio[i] == rest[i - 1];
      assert forall i :: 0 <= i < |rest| ==> rest[i] == audio[i + 1];
      assert !HasAddress(rest, r.address);
      assert forall a :: !HasAddress(audio, a) ==> !HasAddress(rest, a);
      assert forall a :: !HasAddress(audio, a) ==> a != r.address by {
        assert audio[0].address == r.address;
      }
    }
  }

  lemma AudioCreatedKeepsAssociations(c: State, r: Receiver)
    requires AssociationsExact(c) && !HasAddress(c.audio, r.address)
    ensures AssociationsExact(Step(c, AudioCreated(r)))
  {
    var after := Step(c, AudioCreated(r));
    assert after.audio == Insert(r, c.audio) && after.sends == c.sends;
    assert after.associated == c.associated[r.address := SendFor(c, r.local)];
    InsertMembers(r, c.audio);
    forall x | x in after.audio
      ensures x.address in after.associated && after.associated[x.address] == SendFor(after, x.local)
    {
      if x != r {
        assert HasAddress(c.audio, x.address);
      }
    }
  }

  lemma AudioDestroyedKeepsAssociations(c: State, r: Receiver)
    requires Shaped(c) && AssociationsExact(c) && r in c.audio
    ensures AssociationsExact(Step(c, AudioDestroyed(r)))
  {
    var after := Step(c, AudioDestroyed(r));
    assert after.audio == Remove(r, c.audio) && after.sends == c.sends;
    assert after.associated == c.associated - {r.address};
    RemoveMembers(r, c.audio);
    AddressesUnique(c.audio);
  }

  lemma SendKeepsAssociations(c: State, ssrc: Ssrc, send: Option<Address>)
    requires Shaped(c) && AssociationsExact(c)
    ensures var sends := if send.Some? then c.sends[ssrc := send.value] else c.sends - {ssrc};
            AssociationsExact(c.(sends := sends, associated := Associate(c.audio, ssrc, send, c.associated)))
  {
    AssociateMeaning(c.audio, ssrc, send, c.associated);
    var after := Associate(c.audio, ssrc, send, c.associated);
    forall r | r in c.audio
      ensures r.address in after
      ensures after[r.address] == if r.local == ssrc then send else SendFor(c, r.local)
    {
      var i :| 0 <= i < |c.audio| && c.audio[i] == r;
    }
  }

  lemma StepKeepsAssociations(c: State, e: Event)
    requires Shaped(c) && AssociationsExact(c) && Enabled(c, e)
    ensures AssociationsExact(Step(c, e))
  {
    match e
    case AudioCreated(r) => AudioCreatedKeepsAssociations(c, r);
    case AudioDestroyed(r) => AudioDestroyedKeepsAssociations(c, r);
    case SendCreated(ssrc, address) => SendKeepsAssociations(c, ssrc, Some(address));
    case SendDestroyed(ssrc) => SendKeepsAssociations(c, ssrc, None);
    case _ =>
  }

  // ---------- entries of live streams only ----------

  ghost predicate EntriesExact(entries: map<Address, Option<Address>>, rs: seq<Receiver>) {
    forall a :: a in entries <==> HasAddress(rs, a)
  }

  /** Exactly the live video streams are synced or not, and exactly the live audio streams
      have an association or none. */
  ghost predicate NothingStale(c: State) {
    EntriesExact(c.syncedTo, c.video) && EntriesExact(c.associated, c.audio)
  }

  lemma {:induction false} ReassignEntries(
    videos: seq<Receiver>, group: string, target: Option<Address>, synced: map<Address, Option<Address>>)
    requires forall v :: v in videos ==> v.address in synced
    ensures Reassign(videos, group, target, synced).Keys == synced.Keys
  {
    if videos != [] {
      var v := videos[0];
      ReassignEntries(videos[1..], group, if v.group == group then None else target,
                      if v.group == group then synced[v.address := target] else synced);
    }
  }

  lemma {:induction false} AssociateEntries(
    audio: seq<Receiver>, ssrc: Ssrc, send: Option<Address>, associated: map<Address, Option<Address>>)
    requires forall r :: r in audio ==> r.address in associated
    ensures Associate(audio, ssrc, send, associated).Keys == associated.Keys
  {
    if audio != [] {
      var r := audio[0];
      AssociateEntries(audio[1..], ssrc, send, if r.local == ssrc then associated[r.address := send] else associated);
    }
  }

  lemma InsertEntries(r: Receiver, rs: seq<Receiver>, entries: map<Address, Option<Address>>, v: Option<Address>)
    requires EntriesExact(entries, rs)
    ensures EntriesExact(entries[r.address := v], Insert(r, rs))
  {
    InsertMembers(r, rs);
    AddressMembers(rs);
    AddressMembers(Insert(r, rs));
  }

  lemma RemoveEntries(r: Receiver, rs: seq<Receiver>, entries: map<Address, Option<Address>>)
    requires EntriesExact(entries, rs) && Ascending(rs) && r in rs
    ensures EntriesExact(entries - {r.address}, Remove(r, rs))
  {
    RemoveMembers(r, rs);
    AddressesUnique(rs);
    AddressMembers(rs);
    AddressMembers(Remove(r, rs));
  }

  lemma AddressMembers(rs: seq<Receiver>)
    ensures forall a :: HasAddress(rs, a) <==> exists r :: r in rs && r.address == a
  {
    forall a ensures HasAddress(rs, a) <==> exists r :: r in rs && r.address == a {
      if r :| r in rs && r.address == a {
        var i :| 0 <= i < |rs| && rs[i] == r;
      }
      if i :| 0 <= i < |rs| && rs[i].address == a {
        assert rs[i] in rs;
      }
    }
  }

  lemma ConfigureSyncEntries(c: State, group: string)
    requires EntriesExact(c.syncedTo, c.video)
    ensures ConfigureSync(c, group).syncedTo.Keys == c.syncedTo.Keys
    ensures ConfigureSync(c, group).video == c.video
  {
    forall v | v in c.video ensures v.address in c.syncedTo {
      var i :| 0 <= i < |c.video| && c.video[i] == v;
      assert HasAddress(c.video, v.address);
    }
    ReassignEntries(c.video, group, SyncTarget(c, group), c.syncedTo);
  }

  lemma StepKeepsVideoEntries(c: State, e: Event)
    requires Shaped(c) && EntriesExact(c.syncedTo, c.video) && Enabled(c, e)
    ensures EntriesExact(Step(c, e).syncedTo, Step(c, e).video)
  {
    match e
    case AudioCreated(r) => ConfigureSyncEntries(WithAudio(c, r), r.group);
    case AudioDestroyed(r) => ConfigureSyncEntries(WithoutAudio(c, r), r.group);
    case VideoCreated(r) =>
      InsertEntries(r, c.video, c.syncedTo, None);
      ConfigureSyncEntries(WithVideo(c, r), r.group);
    case VideoDestroyed(r) =>
      RemoveEntries(r, c.video, c.syncedTo);
      ConfigureSyncEntries(WithoutVideo(c, r), r.group);
    case _ =>
  }

  lemma StepKeepsAudioEntries(c: State, e: Event)
    requires Shaped(c) && EntriesExact(c.associated, c.audio) && Enabled(c, e)
    ensures EntriesExact(Step(c, e).associated, Step(c, e).audio)
  {
    forall r | r in c.audio ensures r.address in c.associated {
      var i :| 0 <= i < |c.audio| && c.audio[i] == r;
      assert HasAddress(c.audio, r.address);
    }
    match e
    case AudioCreated(r) => InsertEntries(r, c.audio, c.associated, SendFor(c, r.local));
    case AudioDestroyed(r) => RemoveEntries(r, c.audio, c.associated);
    case SendCreated(ssrc, address) => AssociateEntries(c.audio, ssrc, Some(address), c.associated);
    case SendDestroyed(ssrc) => AssociateEntries(c.audio, ssrc, None, c.associated);
    case _ =>
  }

  // ---------- the delivery table ----------

  datatype Kind = Audio | Video | Flexfec

  function Members(c: State, k: Kind): seq<Receiver> {
    match k
    case Audio => c.audio
    case Video => c.video
    case Flexfec => c.flexfec
  }

  predicate Live(c: State, k: Kind, r: Receiver) { r in Members(c, k) }

  predicate Creates(e: Event) { e.AudioCreated? || e.VideoCreated? || e.FlexfecCreated? }

  predicate Destroys(e: Event) { e.AudioDestroyed? || e.VideoDestroyed? || e.FlexfecDestroyed? }

  function KindOf(e: Event): Kind
    requires Creates(e) || Destroys(e)
  {
    if e.AudioCreated? || e.AudioDestroyed? then Audio
    else if e.VideoCreated? || e.VideoDestroyed? then Video
    else Flexfec
  }

  lemma StepMembers(c: State, e: Event, k: Kind)
    ensures Creates(e) ==>
              Members(Step(c, e), k) == if k == KindOf(e) then Insert(e.r, Members(c, k)) else Members(c, k)
    ensures Destroys(e) ==>
              Members(Step(c, e), k) == if k == KindOf(e) then Remove(e.r, Members(c, k)) else Members(c, k)
  {
  }

  lemma StepTable(c: State, e: Event)
    requires Shaped(c) && Enabled(c, e)
    ensures Creates(e) ==> Step(c, e).table == AddSsrcs(c.table, e.r)
    ensures Destroys(e) ==> Step(c, e).table == DropSsrcs(c.table, e.r)
  {
    if Destroys(e) && !e.VideoDestroyed? {
      assert Ssrcs(e.r) == {e.r.remote};
    }
  }

  lemma LiveAfter(c: State, e: Event)
    requires Shaped(c)
    ensures Creates(e) ==>
              forall k, x :: Live(Step(c, e), k, x) <==> Live(c, k, x) || (k == KindOf(e) && x == e.r)
    ensures Destroys(e) ==>
              forall k, x :: Live(Step(c, e), k, x) <==> Live(c, k, x) && !(k == KindOf(e) && x == e.r)
  {
    if Creates(e) || Destroys(e) {
      InsertMembers(e.r, Members(c, KindOf(e)));
      RemoveMembers(e.r, Members(c, KindOf(e)));
      StepMembers(c, e, Audio);
      StepMembers(c, e, Video);
      StepMembers(c, e, Flexfec);
    }
  }

  /** Some live stream receives on this SSRC. */
  ghost predicate InUse(c: State, ssrc: Ssrc) {
    exists k, r :: Live(c, k, r) && ssrc in Ssrcs(r)
  }

  /** The gate lets a packet through exactly when a live stream receives on its SSRC. */
  ghost predicate KeysExact(c: State) {
    forall ssrc :: ssrc in c.table <==> InUse(c, ssrc)
  }

  /** Creating a stream never makes the table wrong. */
  lemma CreateKeepsKeys(c: State, e: Event)
    requires Shaped(c) && Enabled(c, e) && KeysExact(c) && Creates(e)
    ensures KeysExact(Step(c, e))
  {
    var after := Step(c, e);
    LiveAfter(c, e);
    StepTable(c, e);
    assert Live(after, KindOf(e), e.r);
    forall ssrc ensures ssrc in after.table <==> InUse(after, ssrc) {
      assert ssrc in after.table <==> ssrc in c.table || ssrc in Ssrcs(e.r);
      if InUse(c, ssrc) {
        var k, r :| Live(c, k, r) && ssrc in Ssrcs(r);
        assert Live(after, k, r);
      }
    }
  }

  lemma DestroyLeavesInUse(c: State, e: Event, ssrc: Ssrc)
    requires Shaped(c) && Destroys(e) && Enabled(c, e)
    ensures InUse(c, ssrc) <==> ssrc in Ssrcs(e.r) || InUse(Step(c, e), ssrc)
  {
    LiveAfter(c, e);
    StepTable(c, e);
    assert Live(c, KindOf(e), e.r);
    if InUse(c, ssrc) && ssrc !in Ssrcs(e.r) {
      var k, r :| Live(c, k, r) && ssrc in Ssrcs(r);
      assert Live(Step(c, e), k, r);
    }
    if InUse(Step(c, e), ssrc) {
      var k, r :| Live(Step(c, e), k, r) && ssrc in Ssrcs(r);
      assert Live(c, k, r);
    }
  }

  /** Another live stream shares an SSRC with this one. */
  ghost predicate Shares(c: State, kind: Kind, r: Receiver) {
    exists k, x :: Live(c, k, x) && (k, x) != (kind, r) && !(Ssrcs(x) !! Ssrcs(r))
  }

  lemma SharesMeaning(c: State, kind: Kind, r: Receiver, after: State)
    requires forall k, x :: Live(after, k, x) <==> Live(c, k, x) && (k, x) != (kind, r)
    ensures Shares(c, kind, r) <==> exists ssrc :: ssrc in Ssrcs(r) && InUse(after, ssrc)
  {
    if Shares(c, kind, r) {
      var k, x :| Live(c, k, x) && (k, x) != (kind, r) && !(Ssrcs(x) !! Ssrcs(r));
      assert Live(after, k, x);
      var ssrc :| ssrc in Ssrcs(x) && ssrc in Ssrcs(r);
      assert InUse(after, ssrc);
    }
    if ssrc :| ssrc in Ssrcs(r) && InUse(after, ssrc) {
      var k, x :| Live(after, k, x) && ssrc in Ssrcs(x);
      assert Live(c, k, x);
    }
  }

  /** Destroying one makes it wrong exactly when another live stream shares one of its SSRCs. */
  lemma DestroyKeepsKeysIff(c: State, e: Event)
    requires Shaped(c) && KeysExact(c) && Destroys(e) && Enabled(c, e)
    ensures KeysExact(Step(c, e)) <==> !Shares(c, KindOf(e), e.r)
  {
    StepTable(c, e);
    LiveAfter(c, e);
    SharesMeaning(c, KindOf(e), e.r, Step(c, e));
    forall ssrc ensures InUse(c, ssrc) <==> ssrc in Ssrcs(e.r) || InUse(Step(c, e), ssrc) {
      DestroyLeavesInUse(c, e, ssrc);
    }
    if Shares(c, KindOf(e), e.r) {
      var ssrc :| ssrc in Ssrcs(e.r) && InUse(Step(c, e), ssrc);
      assert ssrc !in Step(c, e).table;
    }
  }

  /** Two audio streams on one SSRC: destroying either hides the other from delivery. */
  lemma SharedSsrcHidesStream()
    ensures var a, b := Receiver(1, 5, 0, 0, "", 0), Receiver(2, 5, 0, 0, "", 0);
            var c := Step(Step(Step(INITIAL, AudioCreated(a)), AudioCreated(b)), AudioDestroyed(a));
            b in c.audio && 5 !in c.table
  {
    var a, b := Receiver(1, 5, 0, 0, "", 0), Receiver(2, 5, 0, 0, "", 0);
    assert Insert(b, [a]) == [a, b];
    assert Remove(a, [a, b]) == [b];
  }

  /** No two live streams share an SSRC. */
  ghost predicate Distinct(c: State) {
    forall k, x, l, y :: Live(c, k, x) && Live(c, l, y) && (k, x) != (l, y) ==> Ssrcs(x) !! Ssrcs(y)
  }

  ghost predicate HeadersExact(c: State) {
    forall k, r, ssrc :: Live(c, k, r) && ssrc in Ssrcs(r) ==> ssrc in c.table && c.table[ssrc] == r.header
  }

  /** Every live stream finds its own configuration under each of its SSRCs, and there is
      nothing else in the table. */
  ghost predicate TableValid(c: State) {
    Distinct(c) && KeysExact(c) && HeadersExact(c)
  }

  /** A new stream's SSRCs are not in use. */
  ghost predicate Unshared(c: State, e: Event) {
    Creates(e) ==> forall ssrc :: ssrc in Ssrcs(e.r) ==> !InUse(c, ssrc)
  }

  lemma CreateKeepsTable(c: State, e: Event)
    requires Shaped(c) && Enabled(c, e) && TableValid(c) && Creates(e) && Unshared(c, e)
    ensures TableValid(Step(c, e))
  {
    var after := Step(c, e);
    CreateKeepsKeys(c, e);
    LiveAfter(c, e);
    StepTable(c, e);
    forall k, x | Live(c, k, x) ensures Ssrcs(x) !! Ssrcs(e.r) {
      forall ssrc | ssrc in Ssrcs(x) ensures ssrc !in Ssrcs(e.r) {
        assert InUse(c, ssrc);
      }
    }
    forall k, r, ssrc | Live(after, k, r) && ssrc in Ssrcs(r)
      ensures ssrc in after.table && after.table[ssrc] == r.header
    {
      if !Live(c, k, r) {
        assert r == e.r;
      }
    }
  }

  lemma DestroyKeepsTable(c: State, e: Event)
    requires Shaped(c) && TableValid(c) && Enabled(c, e) && Destroys(e)
    ensures TableValid(Step(c, e))
  {
    var after := Step(c, e);
    LiveAfter(c, e);
    StepTable(c, e);
    assert Live(c, KindOf(e), e.r);
    forall k, r | Live(after, k, r) ensures Ssrcs(r) !! Ssrcs(e.r) {
      assert Live(c, k, r) && (k, r) != (KindOf(e), e.r);
    }
    DestroyKeepsKeysIff(c, e);
    forall k, r, ssrc | Live(after, k, r) && ssrc in Ssrcs(r)
      ensures ssrc in after.table && after.table[ssrc] == r.header
    {
      assert InUse(after, ssrc);
      assert Live(c, k, r);
    }
  }

  lemma StepKeepsTable(c: State, e: Event)
    requires Shaped(c) && TableValid(c) && Enabled(c, e) && Unshared(c, e)
    ensures TableValid(Step(c, e))
  {
    if Creates(e) {
      CreateKeepsTable(c, e);
    } else if Destroys(e) {
      DestroyKeepsTable(c, e);
    } else {
      assert forall k, r :: Live(Step(c, e), k, r) == Live(c, k, r);
      assert forall ssrc :: InUse(Step(c, e), ssrc) == InUse(c, ssrc);
    }
  }

  // ---------- whole runs ----------

  ghost predicate Valid(c: State) {
    Shaped(c) && SyncValid(c) && AssociationsExact(c)
  }

  ghost predicate EnabledRun(c: State, events: seq<Event>)
    decreases |events|
  {
    events == [] || (Enabled(c, events[0]) && EnabledRun(Step(c, events[0]), events[1..]))
  }

  ghost predicate UnsharedRun(c: State, events: seq<Event>)
    decreases |events|
  {
    events == [] || (Unshared(c, events[0]) && UnsharedRun(Step(c, events[0]), events[1..]))
  }

  function Run(c: State, events: seq<Event>): State
    decreases |events|
  {
    if events == [] then c else Run(Step(c, events[0]), events[1..])
  }

  /** In every run the sync groups and the send associations are as defined. */
  lemma {:induction false} RunKeepsValid(c: State, events: seq<Event>)
    requires Valid(c) && EnabledRun(c, events)
    ensures Valid(Run(c, events))
    decreases |events|
  {
    if events != [] {
      StepKeepsShape(c, events[0]);
      StepKeepsSync(c, events[0]);
      StepKeepsAssociations(c, events[0]);
      RunKeepsValid(Step(c, events[0]), events[1..]);
    }
  }

  /** In every run a destroyed stream leaves nothing behind in them. */
  lemma {:induction false} RunLeavesNothingStale(c: State, events: seq<Event>)
    requires Shaped(c) && NothingStale(c) && EnabledRun(c, events)
    ensures NothingStale(Run(c, events))
    decreases |events|
  {
    if events != [] {
      StepKeepsShape(c, events[0]);
      StepKeepsVideoEntries(c, events[0]);
      StepKeepsAudioEntries(c, events[0]);
      RunLeavesNothingStale(Step(c, events[0]), events[1..]);
    }
  }

  /** In every run without shared SSRCs the delivery table is as defined. */
  lemma {:induction false} RunKeepsTable(c: State, events: seq<Event>)
    requires Shaped(c) && TableValid(c) && EnabledRun(c, events) && UnsharedRun(c, events)
    ensures TableValid(Run(c, events))
    decreases |events|
  {
    if events != [] {
      StepKeepsShape(c, events[0]);
      StepKeepsTable(c, events[0]);
      RunKeepsTable(Step(c, events[0]), events[1..]);
    }
  }

  /** A group keeps its audio stream throughout a run that does not destroy that stream. */
  lemma {:induction false} RunKeepsMapping(c: State, events: seq<Event>, group: string)
    requires group in c.mapping
    requires forall e :: e in events ==>
                           !(e.AudioDestroyed? && e.r.group == group && e.r.address == c.mapping[group])
    ensures group in Run(c, events).mapping && Run(c, events).mapping[group] == c.mapping[group]
    decreases |events|
  {
    if events != [] {
      StepKeepsMapping(c, events[0], group);
      RunKeepsMapping(Step(c, events[0]), events[1..], group);
    }
  }

  /** The audio send stream on an SSRC after a run: that of the last creation, unless it was
      destroyed since. */
  function LastSend(first: Option<Address>, events: seq<Event>, ssrc: Ssrc): Option<Address>
    decreases |events|
  {
    if events == [] then first
    else
      match events[|events| - 1]
      case SendCreated(s, address) =>
        if s == ssrc then Some(address) else LastSend(first, events[..|events| - 1], ssrc)
      case SendDestroyed(s) => if s == ssrc then None else LastSend(first, events[..|events| - 1], ssrc)
      case _ => LastSend(first, events[..|events| - 1], ssrc)
  }

  lemma {:induction false} RunAppend(c: State, events: seq<Event>, e: Event)
    ensures Run(c, events + [e]) == Step(Run(c, events), e)
    decreases |events|
  {
    if events == [] {
      assert events + [e] == [e];
    } else {
      RunAppend(Step(c, events[0]), events[1..], e);
      assert (events + [e])[1..] == events[1..] + [e];
    }
  }

  lemma StepSends(c: State, e: Event, ssrc: Ssrc)
    ensures SendFor(Step(c, e), ssrc) ==
            match e
            case SendCreated(s, address) => if s == ssrc then Some(address) else SendFor(c, ssrc)
            case SendDestroyed(s) => if s == ssrc then None else SendFor(c, ssrc)
            case _ => SendFor(c, ssrc)
  {
  }

  lemma {:induction false} RunSends(c: State, events: seq<Event>, ssrc: Ssrc)
    ensures SendFor(Run(c, events), ssrc) == LastSend(SendFor(c, ssrc), events, ssrc)
    decreases |events|
  {
    if events != [] {
      var init, e := events[..|events| - 1], events[|events| - 1];
      assert events == init + [e];
      RunAppend(c, init, e);
      RunSends(c, init, ssrc);
      StepSends(Run(c, init), e, ssrc);
    }
  }

  /** After every run each audio receive stream reports through the send stream that was
      created last on its local SSRC, if that one still exists. */
  lemma RunAssociates(events: seq<Event>, r: Receiver)
    requires EnabledRun(INITIAL, events) && r in Run(INITIAL, events).audio
    ensures r.address in Run(INITIAL, events).associated
    ensures Run(INITIAL, events).associated[r.address] == LastSend(None, events, r.local)
  {
    InitialValid();
    RunKeepsValid(INITIAL, events);
    RunSends(INITIAL, events, r.local);
  }

  lemma InitialValid()
    ensures Valid(INITIAL) && TableValid(INITIAL) && NothingStale(INITIAL)
  {
  }
}
