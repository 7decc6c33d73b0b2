/** The device form of the real-data tab (its submit handler in app.js):
    each successful analysis appends one card to the device list; a failed
    request appends nothing. */
module Devices {
  import opened Wrappers
  import opened RealAnalysis

  /** What a card shows: the device and its daily need, the percentage as
      text and as the width of the bar, the day counts and the status. */
  datatype DeviceCard = DeviceCard(device: string, energyNeeded: real, percentage: real, barWidth: real,
                                   viableDays: nat, totalDays: nat, status: string)

  function CardFor(rep: DeviceReport): (card: DeviceCard)
    ensures card.device == rep.device && card.energyNeeded == rep.energyNeeded
    ensures card.percentage == rep.percentage && card.barWidth == rep.percentage
    ensures card.viableDays == rep.viableDays && card.totalDays == rep.totalDays && card.status == rep.status
  {
    DeviceCard(rep.device, rep.energyNeeded, rep.percentage, rep.percentage, rep.viableDays, rep.totalDays, rep.status)
  }

  /** For an analysis the backend computed, the bar never overflows its track
      and the day counts read as "viable out of total". */
  lemma CardOfAnalysis(deviceName: string, deviceEnergy: real, energies: seq<real>)
    ensures var card := CardFor(AnalyzeDevice(deviceName, deviceEnergy, energies));
            0.0 <= card.barWidth <= 100.0 && card.viableDays <= card.totalDays == |energies|
  {
    var rep := AnalyzeDevice(deviceName, deviceEnergy, energies);
    assert 0.0 <= rep.percentage <= 100.0;
  }

  /** The cards after a series of submissions, each answered by a report or
      by a failure. */
  function CardsAfter(cards: seq<DeviceCard>, responses: seq<Option<DeviceReport>>): seq<DeviceCard>
    decreases |responses|
  {
    if |responses| == 0 then cards
    else
      var next := if responses[0].Some? then cards + [CardFor(responses[0].value)] else cards;
      CardsAfter(next, responses[1..])
  }

  /** The number of successful responses. */
  function Answered(responses: seq<Option<DeviceReport>>): (n: nat)
    ensures n <= |responses|
    decreases |responses|
  {
    if |responses| == 0 then 0 else (if responses[0].Some? then 1 else 0) + Answered(responses[1..])
  }

  /** Cards are only ever appended: the earlier ones stay where they are and
      there is one new card per successful response. */
  lemma {:induction false} CardsAfterAppends(cards: seq<DeviceCard>, responses: seq<Option<DeviceReport>>)
    ensures |CardsAfter(cards, responses)| == |cards| + Answered(responses)
    ensures CardsAfter(cards, responses)[..|cards|] == cards
    decreases |responses|
  {
    if |responses| > 0 {
      var next := if responses[0].Some? then cards + [CardFor(responses[0].value)] else cards;
      CardsAfterAppends(next, responses[1..]);
      assert next[..|cards|] == cards;
      assert CardsAfter(cards, responses)[..|cards|] == CardsAfter(next, responses[1..])[..|next|][..|cards|];
    }
  }

  /** The device list of the page. */
  class DeviceList {
    var cards: seq<DeviceCard>

    constructor ()
      ensures cards == []
    {
      cards := [];
    }

    /** One submission: insertAdjacentHTML('beforeend', ...) of the card on
        success, nothing when the request failed. */
    method OnSubmit(response: Option<DeviceReport>)
      modifies this
      ensures cards == CardsAfter(old(cards), [response])
      ensures response.Some? ==> cards == old(cards) + [CardFor(response.value)]
      ensures response.None? ==> cards == old(cards)
    {
      if response.Some? {
        cards := cards + [CardFor(response.value)];
      }
    }
  }
}
