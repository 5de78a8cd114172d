/**
  The kind of a runtime error (crates/eldr/src/error.rs). The kind is not a field: it is a marker among
  the free-form details of the error, and every enrichment of the error has to leave it readable.
 */
module ErrorKind {
  import opened Wrappers
  import opened Selections

  datatype Kind = Generic | ProcessInitTimeout | ProcessInitFailed | TaskTimeout | CallTimeout | ProcessLifecycleFailed

  const PREFIX := "__surtr_runtime_error_kind="

  function AsDetailValue(kind: Kind): string {
    match kind
    case Generic => "generic"
    case ProcessInitTimeout => "process_init_timeout"
    case ProcessInitFailed => "process_init_failed"
    case TaskTimeout => "task_timeout"
    case CallTimeout => "call_timeout"
    case ProcessLifecycleFailed => "process_lifecycle_failed"
  }

  function FromDetailValue(value: string): (kind: Option<Kind>)
    ensures kind.Some? ==> value == AsDetailValue(kind.value)
  {
    if value == "generic" then Some(Generic)
    else if value == "process_init_timeout" then Some(ProcessInitTimeout)
    else if value == "process_init_failed" then Some(ProcessInitFailed)
    else if value == "task_timeout" then Some(TaskTimeout)
    else if value == "call_timeout" then Some(CallTimeout)
    else if value == "process_lifecycle_failed" then Some(ProcessLifecycleFailed)
    else None
  }

  /** The detail that marks a kind. */
  function Marker(kind: Kind): string {
    PREFIX + AsDetailValue(kind)
  }

  /** The kind a detail stands for, if it is a readable marker. */
  function Decode(detail: string): Option<Kind> {
    if PREFIX <= detail then FromDetailValue(detail[|PREFIX|..]) else None
  }

  /** `kind`: the first readable marker, else generic. */
  function KindOf(details: seq<string>): Kind {
    if details == [] then Generic
    else match Decode(details[0])
      case Some(kind) => kind
      case None => KindOf(details[1..])
  }

  function WithoutMarkers(details: seq<string>): seq<string> {
    if details == [] then []
    else (if PREFIX <= details[0] then [] else [details[0]]) + WithoutMarkers(details[1..])
  }

  /** `set_kind`: all markers go, one is appended unless the kind is generic. */
  function SetKind(details: seq<string>, kind: Kind): seq<string> {
    WithoutMarkers(details) + (if kind == Generic then [] else [Marker(kind)])
  }

  /** The details of a secondary failure that are kept: no marker, and nothing already there. */
  function Retain(details: seq<string>, more: seq<string>): seq<string>
    decreases more
  {
    if more == [] then details
    else Retain(if PREFIX <= more[0] || more[0] in details then details else details + [more[0]], more[1..])
  }

  /** How an error is displayed. */
  function Display(message: string): string {
    "RuntimeError: " + message
  }

  function RetainSecondary(
    message: string, details: seq<string>, secondary: string, more: seq<string>, title: string): seq<string>
  {
    var different := secondary != message || KindOf(more) != KindOf(details);
    Retain(if different then details + [title + ": " + Display(secondary)] else details, more)
  }

  // ---------- What keeps the kind ----------

  lemma DetailValueRoundTrip(kind: Kind)
    ensures FromDetailValue(AsDetailValue(kind)) == Some(kind)
  {}

  lemma DetailValueHasNoColon(kind: Kind)
    ensures ':' !in AsDetailValue(kind)
  {}

  lemma PrefixHasNoColon()
    ensures ':' !in PREFIX
  {}

  /** A labelled secondary failure never reads as a marker, whatever the title. */
  lemma LabelIsNoMarker(title: string, rest: string)
    ensures Decode(title + ":" + rest) == None
  {
    var detail := title + ":" + rest;
    if PREFIX <= detail {
      assert detail[|title|] == ':';
      PrefixHasNoColon();
      assert forall i | 0 <= i < |PREFIX| :: detail[i] in PREFIX;
      var value := detail[|PREFIX|..];
      assert value[|title| - |PREFIX|] == ':';
      if FromDetailValue(value).Some? { DetailValueHasNoColon(FromDetailValue(value).value); }
    }
  }

  lemma {:induction false} KindOfAppend(details: seq<string>, detail: string)
    requires Decode(detail) == None
    ensures KindOf(details + [detail]) == KindOf(details)
  {
    if details == [] {
      assert [detail][1..] == [] && details + [detail] == [detail];
    } else {
      assert (details + [detail])[1..] == details[1..] + [detail];
      KindOfAppend(details[1..], detail);
    }
  }

  lemma {:induction false} RetainKeepsKind(details: seq<string>, more: seq<string>)
    ensures KindOf(Retain(details, more)) == KindOf(details)
    decreases more
  {
    if more != [] {
      var grown := if PREFIX <= more[0] || more[0] in details then details else details + [more[0]];
      RetainKeepsKind(grown, more[1..]);
      if grown != details { KindOfAppend(details, more[0]); }
    }
  }

  lemma {:induction false} SetKindGivesKind(details: seq<string>, kind: Kind)
    ensures KindOf(SetKind(details, kind)) == kind
  {
    if details == [] {
      DetailValueRoundTrip(kind);
      var marker := Marker(kind);
      assert marker[|PREFIX|..] == AsDetailValue(kind);
      assert WithoutMarkers([]) + [marker] == [marker];
    } else {
      SetKindGivesKind(details[1..], kind);
      if PREFIX <= details[0] {
        assert SetKind(details, kind) == SetKind(details[1..], kind);
      } else {
        assert SetKind(details, kind) == [details[0]] + SetKind(details[1..], kind);
        assert ([details[0]] + SetKind(details[1..], kind))[1..] == SetKind(details[1..], kind);
      }
    }
  }

  // ---------- What the details hold ----------

  lemma DecodeExactly(detail: string, kind: Kind)
    ensures Decode(detail) == Some(kind) <==> detail == Marker(kind)
  {
    DetailValueRoundTrip(kind);
    assert Marker(kind)[|PREFIX|..] == AsDetailValue(kind);
    if PREFIX <= detail { assert detail == PREFIX + detail[|PREFIX|..]; }
  }

  /** The kind is that of the first marker among the details. */
  lemma {:induction false} KindOfFirstMarker(details: seq<string>, i: nat, kind: Kind)
    requires i < |details| && details[i] == Marker(kind)
    requires forall j, k | 0 <= j < i :: details[j] != Marker(k)
    ensures KindOf(details) == kind
  {
    hide Marker, Decode;
    if i == 0 {
      DecodeExactly(details[0], kind);
    } else {
      forall k ensures Decode(details[0]) != Some(k) { DecodeExactly(details[0], k); }
      KindOfFirstMarker(details[1..], i - 1, kind);
    }
  }

  /** Without a marker the kind is generic. */
  lemma {:induction false} KindOfUnmarked(details: seq<string>)
    requires forall j, k | 0 <= j < |details| :: details[j] != Marker(k)
    ensures KindOf(details) == Generic
  {
    hide Marker, Decode;
    if details != [] {
      forall k ensures Decode(details[0]) != Some(k) { DecodeExactly(details[0], k); }
      KindOfUnmarked(details[1..]);
    }
  }

  /** `kept` lists, of the first `n` details, those that are no marker of any form. */
  ghost predicate KeepsUnmarked(details: seq<string>, n: nat, kept: seq<nat>) {
    && n <= |details| && Positions(kept, n)
    && (forall i: nat | i < n :: i in kept <==> !(PREFIX <= details[i]))
  }

  /** `after` holds the unmarked details of `before` in order, then one marker unless the kind is generic. */
  ghost predicate ReplacesMarkers(before: seq<string>, kind: Kind, after: seq<string>) {
    exists kept: seq<nat> ::
      && KeepsUnmarked(before, |before|, kept)
      && after == Pick(before, kept) + if kind == Generic then [] else [Marker(kind)]
  }

  lemma UnmarkedPositions(details: seq<string>) returns (kept: seq<nat>)
    ensures KeepsUnmarked(details, |details|, kept) && WithoutMarkers(details) == Pick(details, kept)
  {
    kept := [];
    assert details[0..] == details;
    for i := 0 to |details|
      invariant KeepsUnmarked(details, i, kept)
      invariant WithoutMarkers(details) == Pick(details, kept) + WithoutMarkers(details[i..])
    {
      assert details[i..][0] == details[i] && details[i..][1..] == details[i + 1..];
      PickNext(details, kept, i);
      if !(PREFIX <= details[i]) {
        kept := kept + [i];
      }
    }
  }

  /** Setting a kind loses no detail and leaves no other marker. */
  lemma SetKindReplacesMarkers(details: seq<string>, kind: Kind)
    ensures ReplacesMarkers(details, kind, SetKind(details, kind))
  {
    var kept := UnmarkedPositions(details);
    assert KeepsUnmarked(details, |details|, kept);
  }

  /** `kept` lists, of the first `n` in `more`, the first occurrences of unmarked details not yet there. */
  ghost predicate KeepsNew(details: seq<string>, more: seq<string>, n: nat, kept: seq<nat>) {
    && n <= |more| && Positions(kept, n)
    && (forall i: nat | i < n :: i in kept <==> !(PREFIX <= more[i]) && more[i] !in details && more[i] !in more[..i])
  }

  /** Retaining appends exactly the new unmarked details, each once and in order. */
  lemma RetainExactly(details: seq<string>, more: seq<string>) returns (kept: seq<nat>)
    ensures KeepsNew(details, more, |more|, kept) && Retain(details, more) == details + Pick(more, kept)
  {
    kept := [];
    assert more[0..] == more && details + [] == details;
    for i := 0 to |more|
      invariant KeepsNew(details, more, i, kept)
      invariant forall k | 0 <= k < i && !(PREFIX <= more[k]) :: more[k] in details + Pick(more, kept)
      invariant Retain(details, more) == Retain(details + Pick(more, kept), more[i..])
    {
      assert more[i..][0] == more[i] && more[i..][1..] == more[i + 1..];
      if !(PREFIX <= more[i]) { AlreadyThere(details, more, i, kept); }
      PickNext(more, kept, i);
      if !(PREFIX <= more[i]) && more[i] !in details + Pick(more, kept) {
        assert details + (Pick(more, kept) + [more[i]]) == details + Pick(more, kept) + [more[i]];
        kept := kept + [i];
      }
    }
  }

  lemma AlreadyThere(details: seq<string>, more: seq<string>, i: nat, kept: seq<nat>)
    requires i < |more| && KeepsNew(details, more, i, kept) && !(PREFIX <= more[i])
    requires forall k | 0 <= k < i && !(PREFIX <= more[k]) :: more[k] in details + Pick(more, kept)
    ensures more[i] in details + Pick(more, kept) <==> more[i] in details || more[i] in more[..i]
  {
    if more[i] in Pick(more, kept) {
      var k: nat :| k < |kept| && Pick(more, kept)[k] == more[i];
      assert more[..i][kept[k]] == more[i];
    }
    if more[i] in more[..i] {
      var k: nat :| k < i && more[..i][k] == more[i];
      assert more[k] in details + Pick(more, kept);
    }
  }

  /** What a secondary failure adds: its labelled message if it says something else, and its new details. */
  ghost predicate AddsFailure(
    message: string, details: seq<string>, secondary: string, more: seq<string>, title: string, after: seq<string>)
  {
    var base := if secondary != message || KindOf(more) != KindOf(details)
                then details + [title + ": RuntimeError: " + secondary] else details;
    exists kept: seq<nat> :: KeepsNew(base, more, |more|, kept) && after == base + Pick(more, kept)
  }

  lemma SecondaryAddsFailure(
    message: string, details: seq<string>, secondary: string, more: seq<string>, title: string)
    ensures AddsFailure(message, details, secondary, more, title,
                        RetainSecondary(message, details, secondary, more, title))
  {
    var different := secondary != message || KindOf(more) != KindOf(details);
    var labelled := title + ": " + Display(secondary);
    assert labelled == title + ": RuntimeError: " + secondary;
    var base := if different then details + [labelled] else details;
    var kept := RetainExactly(base, more);
    assert KeepsNew(base, more, |more|, kept);
  }

  /** The ways an error is enriched on its way to the user. */
  datatype Enrichment =
    | Context(incoming: seq<string>)
    | Secondary(message: string, details: seq<string>, title: string)

  function Enrich(message: string, details: seq<string>, e: Enrichment): seq<string> {
    match e
    case Context(incoming) => SetKind(incoming, KindOf(details))
    case Secondary(secondary, more, title) => RetainSecondary(message, details, secondary, more, title)
  }

  function EnrichAll(message: string, details: seq<string>, history: seq<Enrichment>): seq<string> {
    if history == [] then details
    else Enrich(message, EnrichAll(message, details, history[..|history| - 1]), history[|history| - 1])
  }

  lemma EnrichKeepsKind(message: string, details: seq<string>, e: Enrichment)
    ensures KindOf(Enrich(message, details, e)) == KindOf(details)
  {
    match e
    case Context(incoming) => SetKindGivesKind(incoming, KindOf(details));
    case Secondary(secondary, more, title) =>
      var labelled := title + ": " + Display(secondary);
      assert labelled == title + ":" + (" " + Display(secondary));
      LabelIsNoMarker(title, " " + Display(secondary));
      KindOfAppend(details, labelled);
      RetainKeepsKind(details, more);
      RetainKeepsKind(details + [labelled], more);
  }

  /** Through every history of enrichments an error keeps the kind it started with. */
  lemma {:induction false} KindSurvivesEveryHistory(message: string, details: seq<string>, history: seq<Enrichment>)
    ensures KindOf(EnrichAll(message, details, history)) == KindOf(details)
  {
    if history != [] {
      KindSurvivesEveryHistory(message, details, history[..|history| - 1]);
      EnrichKeepsKind(message, EnrichAll(message, details, history[..|history| - 1]), history[|history| - 1]);
    }
  }

  /** Nothing an error said, and no detail of a secondary failure other than a marker, is lost. */
  lemma {:induction false} RetainLosesNothing(details: seq<string>, more: seq<string>)
    ensures details <= Retain(details, more)
    ensures forall d | d in more && !(PREFIX <= d) :: d in Retain(details, more)
    decreases more
  {
    if more != [] {
      var grown := if PREFIX <= more[0] || more[0] in details then details else details + [more[0]];
      RetainLosesNothing(grown, more[1..]);
      forall d | d in more && !(PREFIX <= d) ensures d in Retain(details, more) {
        assert d == more[0] ==> d in grown;
      }
    }
  }

  class RuntimeError {
    var message: string
    var details: seq<string>

    constructor WithKind(message: string, kind: Kind)
      ensures this.message == message && KindOf(details) == kind
      ensures details == if kind == Generic then [] else [Marker(kind)]
    {
      this.message := message;
      details := [];
      new;
      ReplaceKind(kind);
      SetKindGivesKind([], kind);
    }

    method ReplaceKind(kind: Kind)
      modifies this`details
      ensures details == SetKind(old(details), kind) && ReplacesMarkers(old(details), kind, details)
    {
      var kept := [];
      for i := 0 to |details|
        invariant details == old(details)
        invariant kept + WithoutMarkers(details[i..]) == WithoutMarkers(details)
      {
        assert details[i..][0] == details[i] && details[i..][1..] == details[i + 1..];
        if !(PREFIX <= details[i]) {
          kept := kept + [details[i]];
        }
      }
      details := kept;
      SetKindReplacesMarkers(old(details), kind);
      if kind != Generic {
        details := details + [Marker(kind)];
      }
    }

    method WithContext(incoming: seq<string>)
      modifies this`details
      ensures details == Enrich(message, old(details), Context(incoming)) && KindOf(details) == KindOf(old(details))
      ensures ReplacesMarkers(incoming, KindOf(old(details)), details)
    {
      var kind := KindOf(details);
      details := incoming;
      ReplaceKind(kind);
      SetKindGivesKind(incoming, kind);
    }

    method RetainSecondaryFailure(secondary: RuntimeError, title: string)
      requires secondary != this
      modifies this`details
      ensures details == Enrich(message, old(details), Secondary(secondary.message, secondary.details, title))
      ensures KindOf(details) == KindOf(old(details))
      ensures AddsFailure(message, old(details), secondary.message, secondary.details, title, details)
    {
      SecondaryAddsFailure(message, details, secondary.message, secondary.details, title);
      EnrichKeepsKind(message, details, Secondary(secondary.message, secondary.details, title));
      if secondary.message != message || KindOf(secondary.details) != KindOf(details) {
        details := details + [title + ": " + Display(secondary.message)];
      }
      ghost var goal := Retain(details, secondary.details);
      assert secondary.details[0..] == secondary.details;
      for i := 0 to |secondary.details|
        invariant Retain(details, secondary.details[i..]) == goal
      {
        var detail := secondary.details[i];
        assert secondary.details[i..][0] == detail && secondary.details[i..][1..] == secondary.details[i + 1..];
        if !(PREFIX <= detail) && detail !in details {
          details := details + [detail];
        }
      }
    }
  }
}
