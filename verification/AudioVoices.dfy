/** audio/voice.c: the operations that touch both the table of voices and the wave
    buffers. */
module AudioVoices {
  import VoiceTable
  import WaveQueue

  class AudioDriver {
    const table: VoiceTable.AudioDriver
    const buffers: WaveQueue.Driver

    constructor (table: VoiceTable.AudioDriver, buffers: WaveQueue.Driver)
      ensures this.table == table && this.buffers == buffers
    {
      this.table, this.buffers := table, buffers;
    }

    /** audrvVoiceDrop: besides leaving the table, the voice loses its buffers, and each
        of them is done. */
    method Drop(id: nat)
      requires table.Valid() && id < table.inVoices.Length == |buffers.voices| && table.inVoices[id].isUsed
      requires forall i :: 0 <= i < |buffers.voices| ==> buffers.voices[i].Valid()
      requires forall i, j :: 0 <= i < |buffers.voices| && 0 <= j < |buffers.voices| && i != j ==> WaveQueue.Apart(buffers.voices[i], buffers.voices[j])
      modifies table, table.voices, table.inVoices, table.inChannels
      modifies buffers.voices[id], buffers.voices[id].slots, buffers.voices[id].queue`state
      ensures table.Valid() && table.inVoices[..] == old(table.inVoices[..])[id := VoiceTable.CLEARED]
      ensures table.used == VoiceTable.Without(old(table.used), id)
      ensures table.free == VoiceTable.FreeAfterDrop(old(table.free), old(table.inVoices[..]), id)
      ensures buffers.voices[id].queue == [] && forall w :: w in old(buffers.voices[id].queue) ==> w.state == WaveQueue.Done
      ensures forall i :: 0 <= i < |buffers.voices| ==> buffers.voices[i].Valid()
      ensures forall i, j :: 0 <= i < |buffers.voices| && 0 <= j < |buffers.voices| && i != j ==> WaveQueue.Apart(buffers.voices[i], buffers.voices[j])
    {
      hide *;
      table.Drop(id);
      buffers.StopOrDrop(id, true);
    }

    method DropIfUsed(id: nat)
      requires table.Valid() && id < table.inVoices.Length == |buffers.voices|
      requires forall i :: 0 <= i < |buffers.voices| ==> buffers.voices[i].Valid()
      requires forall i, j :: 0 <= i < |buffers.voices| && 0 <= j < |buffers.voices| && i != j ==> WaveQueue.Apart(buffers.voices[i], buffers.voices[j])
      modifies table, table.voices, table.inVoices, table.inChannels
      modifies buffers.voices[id], buffers.voices[id].slots, buffers.voices[id].queue`state
      ensures table.Valid() && !table.inVoices[id].isUsed
      ensures table.free == VoiceTable.FreeAfterDrop(old(table.free), old(table.inVoices[..]), id)
      ensures table.used == VoiceTable.UsedAfterDrop(old(table.used), old(table.inVoices[..]), id)
      ensures table.inVoices[..] == VoiceTable.VoicesAfterDrop(old(table.inVoices[..]), id)
      ensures if old(table.inVoices[id]).isUsed
              then buffers.voices[id].queue == [] && forall w :: w in old(buffers.voices[id].queue) ==> w.state == WaveQueue.Done
              else buffers.voices[id].queue == old(buffers.voices[id].queue)
      ensures forall i :: 0 <= i < |buffers.voices| ==> buffers.voices[i].Valid()
      ensures forall i, j :: 0 <= i < |buffers.voices| && 0 <= j < |buffers.voices| && i != j ==> WaveQueue.Apart(buffers.voices[i], buffers.voices[j])
    {
      if table.inVoices[id].isUsed {
        Drop(id);
        assert table.inVoices[id] == table.inVoices[..][id] == VoiceTable.CLEARED;
      }
    }

    method InitAccepted(id: nat, numChannels: nat) returns (ok: bool)
      requires table.Valid() && id < table.inVoices.Length == |buffers.voices| && numChannels >= 1
      requires numChannels <= VoiceTable.MAX_CHANNELS || |VoiceTable.FreeAfterDrop(table.free, table.inVoices[..], id)| < numChannels
      requires forall i :: 0 <= i < |buffers.voices| ==> buffers.voices[i].Valid()
      requires forall i, j :: 0 <= i < |buffers.voices| && 0 <= j < |buffers.voices| && i != j ==> WaveQueue.Apart(buffers.voices[i], buffers.voices[j])
      modifies table, table.voices, table.inVoices, table.inChannels
      modifies buffers.voices[id], buffers.voices[id].slots, buffers.voices[id].queue`state
      ensures table.Valid()
      ensures VoiceTable.Initialised(VoiceTable.FreeAfterDrop(old(table.free), old(table.inVoices[..]), id),
                VoiceTable.UsedAfterDrop(old(table.used), old(table.inVoices[..]), id),
                VoiceTable.VoicesAfterDrop(old(table.inVoices[..]), id), id, numChannels, ok, table.free, table.used, table.inVoices[..])
      ensures ok ==> buffers.voices[id].isNew && buffers.voices[id].playState == WaveQueue.Stopped
      ensures if old(table.inVoices[id]).isUsed
              then buffers.voices[id].queue == [] && forall w :: w in old(buffers.voices[id].queue) ==> w.state == WaveQueue.Done
              else buffers.voices[id].queue == old(buffers.voices[id].queue)
      ensures forall i :: 0 <= i < |buffers.voices| ==> buffers.voices[i].Valid()
      ensures forall i, j :: 0 <= i < |buffers.voices| && 0 <= j < |buffers.voices| && i != j ==> WaveQueue.Apart(buffers.voices[i], buffers.voices[j])
    {
      hide *;
      DropIfUsed(id);
      ok := table.InitUnused(id, numChannels);
      if ok {
        buffers.Init(id);
      }
    }

    /** audrvVoiceInit: initialising a voice in use first drops it, and so ends its
        buffers, whether or not there are channels for it afterwards. */
    method Init(id: int, numChannels: int, format: VoiceTable.PcmFormat) returns (ok: bool)
      requires table.Valid() && table.inVoices.Length == |buffers.voices|
      requires VoiceTable.Accepts(table.inVoices[..], id, numChannels, format) && numChannels > VoiceTable.MAX_CHANNELS ==>
                 |VoiceTable.FreeAfterDrop(table.free, table.inVoices[..], id)| < numChannels
      requires forall i :: 0 <= i < |buffers.voices| ==> buffers.voices[i].Valid()
      requires forall i, j :: 0 <= i < |buffers.voices| && 0 <= j < |buffers.voices| && i != j ==> WaveQueue.Apart(buffers.voices[i], buffers.voices[j])
      modifies table, table.voices, table.inVoices, table.inChannels
      modifies if 0 <= id < |buffers.voices| then {buffers.voices[id], buffers.voices[id].slots} else {}
      modifies (if 0 <= id < |buffers.voices| then buffers.voices[id].queue else [])`state
      ensures table.Valid()
      ensures VoiceTable.Accepts(old(table.inVoices[..]), id, numChannels, format) ==>
                VoiceTable.Initialised(VoiceTable.FreeAfterDrop(old(table.free), old(table.inVoices[..]), id),
                VoiceTable.UsedAfterDrop(old(table.used), old(table.inVoices[..]), id),
                VoiceTable.VoicesAfterDrop(old(table.inVoices[..]), id), id, numChannels, ok, table.free, table.used, table.inVoices[..])
      ensures ok ==> 0 <= id < |buffers.voices| && buffers.voices[id].isNew && buffers.voices[id].playState == WaveQueue.Stopped
      ensures VoiceTable.Accepts(old(table.inVoices[..]), id, numChannels, format) && old(table.inVoices[id]).isUsed ==>
                buffers.voices[id].queue == [] && forall w :: w in old(buffers.voices[id].queue) ==> w.state == WaveQueue.Done
      ensures VoiceTable.Accepts(old(table.inVoices[..]), id, numChannels, format) && !old(table.inVoices[id]).isUsed ==>
                buffers.voices[id].queue == old(buffers.voices[id].queue)
      ensures !VoiceTable.Accepts(old(table.inVoices[..]), id, numChannels, format) ==>
                !ok && table.free == old(table.free) && table.used == old(table.used) && table.inVoices[..] == old(table.inVoices[..])
                && forall i :: 0 <= i < |buffers.voices| ==> WaveQueue.SameVoice(buffers.voices[i])
      ensures forall i :: 0 <= i < |buffers.voices| ==> buffers.voices[i].Valid()
      ensures forall i, j :: 0 <= i < |buffers.voices| && 0 <= j < |buffers.voices| && i != j ==> WaveQueue.Apart(buffers.voices[i], buffers.voices[j])
    {
      if id < 0 || id >= table.inVoices.Length || numChannels < 1 || (format != VoiceTable.Int16 && format != VoiceTable.Adpcm) {
        return false;
      }
      assert VoiceTable.Accepts(table.inVoices[..], id, numChannels, format);
      ok := InitAccepted(id, numChannels);
    }
  }
}
