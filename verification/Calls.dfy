/** The call object: creating and destroying streams, configuring bitrates and letting
    packets through, with the tables updated in place.
 */
module Calls {
  import opened Options
  import opened EvenShares
  import M = CallMachine
  import B = CallBitrates

  datatype MediaType = Audio | Video | Any

  datatype DeliveryStatus = Ok | UnknownSsrc | PacketError

  class Call {
    var audioReceive: seq<M.Receiver>
    var videoReceive: seq<M.Receiver>
    /** FlexFEC streams are known to a call only by their table entries. */
    ghost var flexfecReceive: seq<M.Receiver>
    var receiveRtpConfig: map<M.Ssrc, int>
    var syncStreamMapping: map<string, M.Address>
    /** What each video receive stream, and each audio receive stream, was last told. */
    var syncedTo: map<M.Address, Option<M.Address>>
    var associated: map<M.Address, Option<M.Address>>
    var audioSendSsrcs: map<M.Ssrc, M.Address>

    var base: B.BitrateConfig
    var mask: B.Mask
    var config: B.BitrateConfig
    /** The calls of SetBweBitrates so far. */
    ghost var sent: seq<B.BitrateConfig>

    ghost function Streams(): M.State
      reads this
    {
      M.State(audioReceive, videoReceive, flexfecReceive, receiveRtpConfig, syncStreamMapping, syncedTo,
              audioSendSsrcs, associated)
    }

    ghost function Bitrates(): B.State
      reads this
    {
      B.State(base, mask, config, sent)
    }

    constructor (config: B.BitrateConfig)
      requires B.LegalInitial(config)
      ensures M.Valid(Streams()) && M.TableValid(Streams()) && B.Valid(Bitrates())
      ensures Streams() == M.INITIAL && Bitrates() == B.Initial(config)
    {
      audioReceive, videoReceive, flexfecReceive, receiveRtpConfig := [], [], [], map[];
      syncStreamMapping, syncedTo, associated, audioSendSsrcs := map[], map[], map[], map[];
      this.config, base, mask := config, config, B.NO_MASK;
      sent := [config];
      new;
      M.InitialValid();
    }

    // ---------- bitrates ----------

    method SetBitrateConfig(bitrateConfig: B.BitrateConfig)
      requires B.Valid(Bitrates()) && B.LegalBase(bitrateConfig)
      modifies this
      ensures B.Valid(Bitrates()) && Streams() == old(Streams())
      ensures Bitrates() == B.Step(old(Bitrates()), B.SetConfig(bitrateConfig))
    {
      B.StepKeepsValid(Bitrates(), B.SetConfig(bitrateConfig));
      var newStart := None;
      if bitrateConfig.start != -1 && bitrateConfig.start != base.start {
        newStart := Some(bitrateConfig.start);
      }
      base := bitrateConfig;
      UpdateCurrentBitrateConfig(newStart);
    }

    method SetBitrateConfigMask(newMask: B.Mask)
      requires B.Valid(Bitrates())
      modifies this
      ensures B.Valid(Bitrates()) && Streams() == old(Streams())
      ensures Bitrates() == B.Step(old(Bitrates()), B.SetMask(newMask))
    {
      B.StepKeepsValid(Bitrates(), B.SetMask(newMask));
      mask := newMask;
      UpdateCurrentBitrateConfig(newMask.start);
    }

    method UpdateCurrentBitrateConfig(newStart: Option<int>)
      modifies this`config, this`sent
      ensures Bitrates() == B.Update(old(Bitrates()), newStart)
    {
      var min, start, max := Max(mask.min.GetOr(0), base.min), -1, B.MinPositive(mask.max.GetOr(-1), base.max);
      if max != -1 && min > max {
        min := max;
      }
      if min == config.min && max == config.max && newStart == None {
        return;
      }
      if newStart.Some? {
        start := B.MinPositive(Max(newStart.value, min), max);
      }
      sent := sent + [B.BitrateConfig(min, start, max)];
      if newStart == None {
        start := config.start;
      }
      config := B.BitrateConfig(min, start, max);
    }

    // ---------- receive streams ----------

    /** The invariants of the stream tables carry over to the state after any operation. */
    lemma StreamStepKeepsValid(e: M.Event)
      requires M.Valid(Streams()) && M.Enabled(Streams(), e)
      ensures M.Valid(M.Step(Streams(), e))
    {
      M.StepKeepsShape(Streams(), e);
      M.StepKeepsSync(Streams(), e);
      M.StepKeepsAssociations(Streams(), e);
    }

    method CreateAudioReceiveStream(r: M.Receiver)
      requires M.Valid(Streams()) && M.Enabled(Streams(), M.AudioCreated(r))
      modifies this
      ensures M.Valid(Streams())
      ensures Streams() == M.Step(old(Streams()), M.AudioCreated(r)) && Bitrates() == old(Bitrates())
    {
      StreamStepKeepsValid(M.AudioCreated(r));
      InsertAudioReceiveStream(r);
      AssociateReceiveStream(r);
    }

    method DestroyAudioReceiveStream(r: M.Receiver)
      requires M.Valid(Streams()) && r in audioReceive
      modifies this
      ensures M.Valid(Streams())
      ensures Streams() == M.Step(old(Streams()), M.AudioDestroyed(r)) && Bitrates() == old(Bitrates())
    {
      StreamStepKeepsValid(M.AudioDestroyed(r));
      EraseAudioReceiveStream(r);
      associated := associated - {r.address};
    }

    /** The part of the creation under the receive lock. */
    method InsertAudioReceiveStream(r: M.Receiver)
      modifies this`receiveRtpConfig, this`audioReceive, this`syncStreamMapping, this`syncedTo
      ensures Streams() == M.ConfigureSync(M.WithAudio(old(Streams()), r), r.group)
    {
      receiveRtpConfig := receiveRtpConfig[r.remote := r.header];
      audioReceive := M.Insert(r, audioReceive);
      assert Streams() == M.WithAudio(old(Streams()), r);
      ConfigureSync(r.group);
    }

    /** The part of the creation under the send lock. */
    method AssociateReceiveStream(r: M.Receiver)
      modifies this`associated
      ensures associated == old(associated)[r.address := M.SendFor(Streams(), r.local)]
    {
      associated := associated[r.address := None];
      if r.local in audioSendSsrcs {
        associated := associated[r.address := Some(audioSendSsrcs[r.local])];
      }
    }

    /** The part of the destruction under the receive lock. */
    method EraseAudioReceiveStream(r: M.Receiver)
      modifies this`receiveRtpConfig, this`audioReceive, this`syncStreamMapping, this`syncedTo
      ensures Streams() == M.WithoutAudioSynced(old(Streams()), r).(table := old(receiveRtpConfig) - {r.remote})
    {
      audioReceive := M.Remove(r, audioReceive);
      if r.group in syncStreamMapping && syncStreamMapping[r.group] == r.address {
        syncStreamMapping := syncStreamMapping - {r.group};
        assert Streams() == M.WithoutAudio(old(Streams()), r);
        ConfigureSync(r.group);
      }
      receiveRtpConfig := receiveRtpConfig - {r.remote};
    }

    method CreateVideoReceiveStream(r: M.Receiver)
      requires M.Valid(Streams()) && M.Enabled(Streams(), M.VideoCreated(r))
      modifies this
      ensures M.Valid(Streams())
      ensures Streams() == M.Step(old(Streams()), M.VideoCreated(r)) && Bitrates() == old(Bitrates())
    {
      StreamStepKeepsValid(M.VideoCreated(r));
      InsertVideoReceiveStream(r);
      ConfigureSync(r.group);
    }

    /** The part of the creation that fills the tables. */
    method InsertVideoReceiveStream(r: M.Receiver)
      modifies this`receiveRtpConfig, this`videoReceive, this`syncedTo
      ensures Streams() == M.WithVideo(old(Streams()), r)
    {
      if r.rtx != 0 {
        receiveRtpConfig := receiveRtpConfig[r.rtx := r.header];
      }
      receiveRtpConfig := receiveRtpConfig[r.remote := r.header];
      videoReceive := M.Insert(r, videoReceive);
      syncedTo := syncedTo[r.address := None];
    }

    method DestroyVideoReceiveStream(r: M.Receiver)
      requires M.Valid(Streams()) && r in videoReceive
      modifies this
      ensures M.Valid(Streams())
      ensures Streams() == M.Step(old(Streams()), M.VideoDestroyed(r)) && Bitrates() == old(Bitrates())
    {
      StreamStepKeepsValid(M.VideoDestroyed(r));
      EraseVideoReceiveStream(r);
      ConfigureSync(r.group);
    }

    /** The part of the destruction that clears the tables. */
    method EraseVideoReceiveStream(r: M.Receiver)
      modifies this`receiveRtpConfig, this`videoReceive, this`syncedTo
      ensures Streams() == M.WithoutVideo(old(Streams()), r)
    {
      receiveRtpConfig := receiveRtpConfig - {r.remote};
      if r.rtx != 0 {
        receiveRtpConfig := receiveRtpConfig - {r.rtx};
      }
      assert receiveRtpConfig == M.DropSsrcs(old(receiveRtpConfig), r);
      videoReceive := M.Remove(r, videoReceive);
      syncedTo := syncedTo - {r.address};
    }

    method CreateFlexfecReceiveStream(r: M.Receiver)
      requires M.Valid(Streams()) && M.Enabled(Streams(), M.FlexfecCreated(r))
      modifies this
      ensures M.Valid(Streams())
      ensures Streams() == M.Step(old(Streams()), M.FlexfecCreated(r)) && Bitrates() == old(Bitrates())
    {
      StreamStepKeepsValid(M.FlexfecCreated(r));
      receiveRtpConfig := receiveRtpConfig[r.remote := r.header];
      flexfecReceive := M.Insert(r, flexfecReceive);
    }

    method DestroyFlexfecReceiveStream(r: M.Receiver)
      requires M.Valid(Streams()) && r in flexfecReceive
      modifies this
      ensures M.Valid(Streams())
      ensures Streams() == M.Step(old(Streams()), M.FlexfecDestroyed(r)) && Bitrates() == old(Bitrates())
    {
      StreamStepKeepsValid(M.FlexfecDestroyed(r));
      receiveRtpConfig := receiveRtpConfig - {r.remote};
      flexfecReceive := M.Remove(r, flexfecReceive);
    }

    /** Sync only the first pair of a group; an existing audio stream is kept. */
    method ConfigureSync(group: string)
      modifies this`syncStreamMapping, this`syncedTo
      ensures Streams() == M.ConfigureSync(old(Streams()), group)
    {
      if group == "" {
        return;
      }
      var target: Option<M.Address> := None;
      if group in syncStreamMapping {
        target := Some(syncStreamMapping[group]);
      } else {
        target := FindSyncAudio(group);
      }
      if target.Some? {
        syncStreamMapping := syncStreamMapping[group := target.value];
      }
      var numSynced := 0;
      ghost var mapping := syncStreamMapping;
      for i := 0 to |videoReceive|
        invariant numSynced >= 0 && syncStreamMapping == mapping
        invariant M.Reassign(videoReceive[i..], group, if numSynced == 0 then target else None, syncedTo)
               == M.Reassign(videoReceive, group, target, old(syncedTo))
      {
        assert videoReceive[i..][1..] == videoReceive[i + 1..];
        if videoReceive[i].group == group {
          numSynced := numSynced + 1;
          syncedTo := syncedTo[videoReceive[i].address := if numSynced == 1 then target else None];
        }
      }
    }

    method FindSyncAudio(group: string) returns (found: Option<M.Address>)
      ensures found == M.First(audioReceive, group)
    {
      found := None;
      for i := 0 to |audioReceive|
        invariant found == None ==> M.First(audioReceive[i..], group) == M.First(audioReceive, group)
        invariant found.Some? ==> found == M.First(audioReceive, group)
      {
        if audioReceive[i].group == group {
          if found.Some? {
            break;
          }
          found := Some(audioReceive[i].address);
        }
        assert audioReceive[i..][1..] == audioReceive[i + 1..];
      }
    }

    // ---------- audio send streams ----------

    method CreateAudioSendStream(ssrc: M.Ssrc, address: M.Address)
      requires M.Valid(Streams()) && ssrc !in audioSendSsrcs
      modifies this
      ensures M.Valid(Streams())
      ensures Streams() == M.Step(old(Streams()), M.SendCreated(ssrc, address)) && Bitrates() == old(Bitrates())
    {
      StreamStepKeepsValid(M.SendCreated(ssrc, address));
      audioSendSsrcs := audioSendSsrcs[ssrc := address];
      AssociateSendStream(ssrc, Some(address));
    }

    method DestroyAudioSendStream(ssrc: M.Ssrc)
      requires M.Valid(Streams()) && ssrc in audioSendSsrcs
      modifies this
      ensures M.Valid(Streams())
      ensures Streams() == M.Step(old(Streams()), M.SendDestroyed(ssrc)) && Bitrates() == old(Bitrates())
    {
      StreamStepKeepsValid(M.SendDestroyed(ssrc));
      audioSendSsrcs := audioSendSsrcs - {ssrc};
      AssociateSendStream(ssrc, None);
    }

    method AssociateSendStream(ssrc: M.Ssrc, send: Option<M.Address>)
      modifies this`associated
      ensures associated == M.Associate(audioReceive, ssrc, send, old(associated))
    {
      for i := 0 to |audioReceive|
        invariant M.Associate(audioReceive[i..], ssrc, send, associated)
               == M.Associate(audioReceive, ssrc, send, old(associated))
      {
        assert audioReceive[i..][1..] == audioReceive[i + 1..];
        if audioReceive[i].local == ssrc {
          associated := associated[audioReceive[i].address := send];
        }
      }
    }

    // ---------- packets ----------

    /** `ssrc` is that of the parsed packet, if it parses; `accepted` says whether a stream
        of the media type takes it from the demuxer. While the table is exact a packet for no
        live stream never gets that far. */
    method DeliverRtp(ssrc: Option<M.Ssrc>, media: MediaType, accepted: MediaType -> bool)
      returns (status: DeliveryStatus, header: Option<int>)
      ensures status == PacketError <==> ssrc == None
      ensures header.Some? <==> ssrc.Some? && ssrc.value in receiveRtpConfig
      ensures M.KeysExact(Streams()) ==> (header.Some? <==> ssrc.Some? && M.InUse(Streams(), ssrc.value))
      ensures status == Ok <==> header.Some? && media != Any && accepted(media)
      ensures header.Some? && M.HeadersExact(Streams()) ==>
                forall k, r :: M.Live(Streams(), k, r) && ssrc.value in M.Ssrcs(r) ==> header.value == r.header
    {
      if ssrc == None {
        return PacketError, None;
      }
      if ssrc.value !in receiveRtpConfig {
        return UnknownSsrc, None;
      }
      header := Some(receiveRtpConfig[ssrc.value]);
      status := if media != Any && accepted(media) then Ok else UnknownSsrc;
    }
  }
}
