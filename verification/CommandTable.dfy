/** What the dispatcher's table of commands amounts to: which posts went out after which sentence, kind by kind. */
module CommandTable {
  import opened Wrappers
  import opened Json
  import opened Texts
  import opened Guards
  import opened Dispatcher
  import AtSentences

  /** Commands that change something whatever they are given, each with its own sentence. */
  const ALWAYS_ASKED: map<string, string> := map[
    "restart_modem" := "device.confirmRestartModem",
    "reset_modem_usb" := "device.confirmResetModemUsb",
    "scan_operators" := "device.confirmScanOperators",
    "rotate_ip" := "device.confirmRotateIp",
    "reregister_network" := "device.confirmReregister",
    "disable_esim_profile" := "device.confirmDisableProfile",
    "delete_esim_profile" := "device.confirmDeleteProfile",
    "claim_modem_candidate" := "device.confirmClaimCandidate",
    "revoke_modem_candidate" := "device.confirmRevokeCandidate",
    "unregister_modem" := "device.confirmUnregister",
    "create_modem" := "device.confirmCreateModem",
    "configure_apn" := "device.confirmConfigureApn",
    "switch_esim_profile" := "esim.confirmSwitch",
    "download_esim_profile" := "esim.dlWarn"
  ]

  /** Commands that only read, or that only change a label or the register. */
  const NEVER_ASKED: set<string> := {
    "modem_report", "refresh_modems", "rename_esim_profile", "register_modem", "update_modem", "reconfirm_modem",
    "read_logs", "list_esim_profiles", "read_esim_info", "retrieve_esim_notification", "initiate_esim_authentication"
  }

  /** Commands of which only one direction is asked about: the field, the value that asks, and the sentence. */
  const ASKED_ONE_WAY: map<string, (string, Json, string)> := map[
    "set_radio" := ("enabled", Bool(false), "device.confirmRadioOff"),
    "set_data_network" := ("enabled", Bool(false), "device.confirmDataOff"),
    "select_operator" := ("mode", Str("manual"), "device.confirmSelectOperator")
  ]

  predicate FieldIs(body: Payload, field: string, value: Json) {
    field in body && body[field] == value
  }

  function TypedIn(body: Payload, text: Json -> string): string {
    if "command" !in body || body["command"] == Null then "" else text(body["command"])
  }

  /** The sentence a command of this kind, with these fields, has to be answered with; None if it goes straight out. */
  function CalledFor(kind: string, body: Payload, text: Json -> string): Option<string> {
    if kind in ALWAYS_ASKED then Some(ALWAYS_ASKED[kind])
    else if kind in NEVER_ASKED then None
    else if kind in ASKED_ONE_WAY then
      var (field, value, sentence) := ASKED_ONE_WAY[kind];
      if FieldIs(body, field, value) then Some(sentence) else None
    else if kind == "set_usbnet_mode" then
      if FieldIs(body, "usbnet_mode", Str("rmnet")) then Some("device.confirmUsbnetRmnet")
      else Some("device.confirmUsbnet")
    else if kind == "send_ussd" then
      if FieldIs(body, "stage", Str("cancel")) then None
      else if FieldIs(body, "stage", Str("continue")) then Some("device.confirmUssdReply")
      else Some("device.confirmUssdSend")
    else if kind == "run_at_command" then AtSentences.SentenceFor(Trim(TypedIn(body, text)))
    else Some("device.confirmUnknownCommand")
  }

  // ---- The table, kind by kind ----

  lemma ShortEntries(kind: string)
    requires kind in ALWAYS_ASKED && |kind| <= 14
    ensures Variants(kind) == Always(Some(ALWAYS_ASKED[kind])) && kind != "run_at_command"
  {
  }

  lemma MiddleEntries(kind: string)
    requires kind in ALWAYS_ASKED && 14 < |kind| <= 18
    ensures Variants(kind) == Always(Some(ALWAYS_ASKED[kind])) && kind != "run_at_command"
  {
  }

  lemma LongEntries(kind: string)
    requires kind in ALWAYS_ASKED && 18 < |kind| <= 20
    ensures Variants(kind) == Always(Some(ALWAYS_ASKED[kind])) && kind != "run_at_command"
  {
  }

  lemma LongestEntries(kind: string)
    requires kind in ALWAYS_ASKED && |kind| > 20
    ensures Variants(kind) == Always(Some(ALWAYS_ASKED[kind])) && kind != "run_at_command"
  {
    if |kind| == 22 {
      assert kind == "revoke_modem_candidate";
    } else if kind[0] == 'c' {
      assert kind == "claim_modem_candidate";
    } else {
      assert kind == "download_esim_profile";
    }
  }

  lemma AlwaysEntries(kind: string)
    requires kind in ALWAYS_ASKED
    ensures Variants(kind) == Always(Some(ALWAYS_ASKED[kind])) && kind != "run_at_command"
  {
    if |kind| <= 14 {
      ShortEntries(kind);
    } else if |kind| <= 18 {
      MiddleEntries(kind);
    } else if |kind| <= 20 {
      LongEntries(kind);
    } else {
      LongestEntries(kind);
    }
  }

  lemma NeverEntries(kind: string)
    requires kind in NEVER_ASKED
    ensures Variants(kind) == Always(None) && kind != "run_at_command"
  {
  }

  lemma OneWayEntries(kind: string)
    requires kind in ASKED_ONE_WAY
    ensures var (field, value, sentence) := ASKED_ONE_WAY[kind];
            Variants(kind) == [Variant(map[field := value], Some(sentence)), Variant(map[], None)]
            && kind != "run_at_command"
  {
  }

  lemma UsbnetEntry()
    ensures Variants("set_usbnet_mode") ==
            [Variant(map["usbnet_mode" := Str("rmnet")], Some("device.confirmUsbnetRmnet"))]
            + [Variant(map[], Some("device.confirmUsbnet"))]
  {
  }

  lemma UssdEntry() returns (reply: seq<Variant>, send: seq<Variant>)
    ensures Variants("send_ussd") == [Variant(map["stage" := Str("cancel")], None)] + reply
    ensures reply == [Variant(map["stage" := Str("continue")], Some("device.confirmUssdReply"))] + send
    ensures send == [Variant(map[], Some("device.confirmUssdSend"))]
  {
    send := Always(Some("device.confirmUssdSend"));
    reply := When("stage", Str("continue"), Some("device.confirmUssdReply"), send);
    UssdVariants(reply);
  }

  lemma UssdVariants(reply: seq<Variant>)
    requires reply == When("stage", Str("continue"), Some("device.confirmUssdReply"),
                           Always(Some("device.confirmUssdSend")))
    ensures Variants("send_ussd") == When("stage", Str("cancel"), None, reply)
  {
    var kind := "send_ussd";
    assert |kind| == 9 && kind[0] == 's' && kind[2] == 'n' && kind[4] == '_';
  }

  predicate Listed(kind: string) {
    kind in ALWAYS_ASKED || kind in NEVER_ASKED || kind in ASKED_ONE_WAY
    || kind in {"set_usbnet_mode", "send_ussd", "run_at_command"}
  }

  lemma UnlistedEntries(kind: string)
    requires !Listed(kind)
    ensures Variants(kind) == [] && kind != "run_at_command"
  {
  }

  lemma FirstOfOne(v: Variant, payload: Payload)
    requires v.when == map[]
    ensures FirstVariant([v], payload) == v.consequence
  {
  }

  lemma FirstOf(field: string, value: Json, consequence: Option<string>, others: seq<Variant>, payload: Payload)
    ensures FirstVariant([Variant(map[field := value], consequence)] + others, payload) ==
            if FieldIs(payload, field, value) then consequence else FirstVariant(others, payload)
  {
    var all := [Variant(map[field := value], consequence)] + others;
    assert all[1..] == others && field in all[0].when;
  }

  /** The table answers, for every kind and every payload, with what is called for. */
  lemma GuardIsCalledFor(kind: string, payload: Payload, text: Json -> string)
    ensures DeviceCommandGuard(kind, payload, text) == CalledFor(kind, payload, text)
  {
    if kind in ALWAYS_ASKED {
      AlwaysEntries(kind);
      FirstOfOne(Variant(map[], Some(ALWAYS_ASKED[kind])), payload);
    } else if kind in NEVER_ASKED {
      NeverEntries(kind);
      FirstOfOne(Variant(map[], None), payload);
    } else if kind in ASKED_ONE_WAY {
      OneWayIsRight(kind, payload, text);
    } else if kind == "set_usbnet_mode" {
      UsbnetIsRight(payload, text);
    } else if kind == "send_ussd" {
      UssdIsRight(payload, text);
    } else if kind == "run_at_command" {
      AtIsRight(payload, text);
    } else {
      UnlistedEntries(kind);
    }
  }

  lemma OneWayIsRight(kind: string, payload: Payload, text: Json -> string)
    requires kind in ASKED_ONE_WAY
    ensures var (field, value, sentence) := ASKED_ONE_WAY[kind];
            DeviceCommandGuard(kind, payload, text) == if FieldIs(payload, field, value) then Some(sentence) else None
  {
    var (field, value, sentence) := ASKED_ONE_WAY[kind];
    OneWayEntries(kind);
    var last := Variant(map[], None);
    assert Variants(kind) == [Variant(map[field := value], Some(sentence))] + [last];
    FirstOf(field, value, Some(sentence), [last], payload);
    FirstOfOne(last, payload);
  }

  lemma UsbnetIsRight(payload: Payload, text: Json -> string)
    ensures DeviceCommandGuard("set_usbnet_mode", payload, text) ==
            if FieldIs(payload, "usbnet_mode", Str("rmnet")) then Some("device.confirmUsbnetRmnet")
            else Some("device.confirmUsbnet")
  {
    UsbnetEntry();
    var last := Variant(map[], Some("device.confirmUsbnet"));
    FirstOf("usbnet_mode", Str("rmnet"), Some("device.confirmUsbnetRmnet"), [last], payload);
    FirstOfOne(last, payload);
  }

  lemma UssdIsRight(payload: Payload, text: Json -> string)
    ensures DeviceCommandGuard("send_ussd", payload, text) ==
            if FieldIs(payload, "stage", Str("cancel")) then None
            else if FieldIs(payload, "stage", Str("continue")) then Some("device.confirmUssdReply")
            else Some("device.confirmUssdSend")
  {
    var reply, send := UssdEntry();
    var last := send[0];
    FirstOf("stage", Str("cancel"), None, reply, payload);
    FirstOf("stage", Str("continue"), Some("device.confirmUssdReply"), send, payload);
    FirstOfOne(last, payload);
  }

  lemma AtIsRight(payload: Payload, text: Json -> string)
    ensures DeviceCommandGuard("run_at_command", payload, text) == AtSentences.SentenceFor(Trim(TypedIn(payload, text)))
  {
    AtSentences.SentenceIsTheShapes(TypedIn(payload, text));
    AtCommandEntry();
  }

  // ---- Over every run ----

  /** A body that names no other kind carries its request's kind and its fields. */
  lemma BodyHasItsFields(deviceId: string, body: Payload, a: Ask, text: Json -> string)
    requires Carries(deviceId, body, a) && "kind" !in a.extra
    ensures body["kind"] == Str(a.kind)
    ensures CalledFor(a.kind, body, text) == CalledFor(a.kind, a.extra, text)
  {
    assert TypedIn(body, text) == TypedIn(a.extra, text);
    forall field, value | field in {"enabled", "mode", "usbnet_mode", "stage"}
      ensures FieldIs(body, field, value) <==> FieldIs(a.extra, field, value)
    {
    }
    OneWayFields();
  }

  lemma OneWayFields()
    ensures forall kind <- ASKED_ONE_WAY :: ASKED_ONE_WAY[kind].0 in {"enabled", "mode"}
  {
  }

  /** `p` posts what `a` asked for, after exactly the sentence its kind and its fields call for. */
  ghost predicate AnsweredRight(p: Post, a: Ask, text: Json -> string) {
    "kind" in p.body && p.body["kind"] == Str(a.kind) && p.answered == CalledFor(a.kind, p.body, text)
  }

  /** Over every run, for posts whose request names no kind in `extra`: each went out after exactly the sentence its
      kind and its fields call for, and unasked exactly if they call for none. */
  lemma EveryPostWasAnsweredRight(s: State, events: seq<Event>, text: Json -> string)
    requires Fresh(s)
    ensures forall p <- Run(s, events, text).posted ::
              && p.ticket < |Asks(s.imei, events)|
              && ("kind" !in Asks(s.imei, events)[p.ticket].extra ==>
                    AnsweredRight(p, Asks(s.imei, events)[p.ticket], text))
  {
    PostsComeFromRequests(s, events, text);
    forall p | p in Run(s, events, text).posted
      ensures p.ticket < |Asks(s.imei, events)|
      ensures "kind" !in Asks(s.imei, events)[p.ticket].extra ==>
                AnsweredRight(p, Asks(s.imei, events)[p.ticket], text)
    {
      var a := Asks(s.imei, events)[p.ticket];
      assert PostOf(s.panel, s.deviceId, p, a, text);
      if "kind" !in a.extra {
        BodyHasItsFields(s.deviceId, p.body, a, text);
        GuardIsCalledFor(a.kind, a.extra, text);
      }
    }
  }

  // ---- Requests are sent ----

  /** What a page that may write does with a request: it goes out at once, or waits for the sentence it calls for. */
  lemma RequestGoesOutOrWaits(s: State, kind: string, extra: Payload, text: Json -> string)
    requires s.panel == Console || s.panel == Esim(true)
    ensures var s', sentence := Step(s, Request(kind, extra), text), CalledFor(kind, extra, text);
            s' == if sentence.None?
                  then s.(next := s.next + 1, posted := s.posted + [Post(Body(s, kind, extra), s.next, None, s.imei)])
                  else s.(next := s.next + 1, pending := Some(Pending(kind, extra, sentence.value, s.next)))
  {
    GuardLooksAtItsFields(kind, Asked(s, extra), extra, text);
    GuardIsCalledFor(kind, extra, text);
  }

  lemma ProceedPosts(s: State, p: Pending, text: Json -> string)
    requires (s.panel == Console || s.panel == Esim(true)) && s.pending == Some(p)
    ensures Step(s, Proceed, text) ==
            s.(pending := None,
               posted := s.posted + [Post(Body(s, p.kind, p.extra), p.ticket, Some(p.consequence), s.imei)])
  {
  }

  predicate OnlySelects(events: seq<Event>) {
    forall e <- events :: e.Select?
  }

  lemma {:induction false} SelectingKeepsPending(s: State, between: seq<Event>, text: Json -> string)
    requires OnlySelects(between)
    ensures var s' := Run(s, between, text); s' == s.(imei := s'.imei)
    decreases |between|
  {
    if between != [] {
      assert between[0].Select?;
      assert forall e <- between[1..] :: e in between;
      SelectingKeepsPending(Step(s, between[0], text), between[1..], text);
    }
  }

  /** A request that has to be answered is posted when it is, whatever was selected meanwhile, after its own sentence.
      */
  lemma AnsweredRequestIsPosted(s: State, kind: string, extra: Payload, between: seq<Event>, text: Json -> string)
    requires s.panel == Console || s.panel == Esim(true)
    requires CalledFor(kind, extra, text).Some? && OnlySelects(between)
    ensures var waiting := Run(Step(s, Request(kind, extra), text), between, text);
            var s', sentence := Step(waiting, Proceed, text), CalledFor(kind, extra, text);
            && waiting.posted == s.posted
            && s'.posted == s.posted + [Post(Body(waiting, kind, extra), s.next, sentence, waiting.imei)]
            && s'.pending == None && Carries(s.deviceId, Body(waiting, kind, extra), Ask(kind, extra, s.imei))
  {
    var asked := Step(s, Request(kind, extra), text);
    RequestGoesOutOrWaits(s, kind, extra, text);
    SelectingKeepsPending(asked, between, text);
    ProceedPosts(Run(asked, between, text), asked.pending.value, text);
    BodyCarries(Run(asked, between, text), Ask(kind, extra, s.imei));
  }
}
