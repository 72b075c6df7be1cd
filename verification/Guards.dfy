/** What has to be answered before a device command is sent (`deviceCommandGuard` in `lib/tokens.ts`). */
module Guards {
  import opened Wrappers
  import opened Json
  import AtGuards
  import Texts

  type Payload = map<string, Json>

  /** One case of a command: the fields it is about, and the sentence to be answered, if any. */
  datatype Variant = Variant(when: Payload, consequence: Option<string>)

  const UNKNOWN_COMMAND := "device.confirmUnknownCommand"

  /** The fields a guard ever looks at. */
  const ASKED_FIELDS: set<string> := {"enabled", "mode", "usbnet_mode", "stage", "command"}

  /** A list of cases that ends in one for everything, is about nothing but those fields,
      and never gives the fallback's answer. */
  ghost predicate WellShaped(variants: seq<Variant>) {
    && variants != [] && variants[|variants| - 1].when == map[]
    && forall v <- variants :: v.when.Keys <= ASKED_FIELDS && v.consequence != Some(UNKNOWN_COMMAND)
  }

  /** The last case of an entry: whatever the payload. */
  function Always(consequence: Option<string>): (variants: seq<Variant>)
    requires consequence != Some(UNKNOWN_COMMAND)
    ensures WellShaped(variants)
  {
    [Variant(map[], consequence)]
  }

  /** A case about one field, in front of the others. */
  function When(field: string, value: Json, consequence: Option<string>, others: seq<Variant>): (variants: seq<Variant>)
    requires field in ASKED_FIELDS && consequence != Some(UNKNOWN_COMMAND) && WellShaped(others)
    ensures WellShaped(variants)
  {
    [Variant(map[field := value], consequence)] + others
  }

  /** `DEVICE_COMMAND_GUARDS`; no entry is an empty list. */
  function Variants(kind: string): (variants: seq<Variant>)
    ensures variants == [] || WellShaped(variants)
  {
    match kind
    case "modem_report" => Always(None)
    case "refresh_modems" => Always(None)
    case "restart_modem" => Always(Some("device.confirmRestartModem"))
    case "reset_modem_usb" => Always(Some("device.confirmResetModemUsb"))
    case "scan_operators" => Always(Some("device.confirmScanOperators"))
    case "rotate_ip" => Always(Some("device.confirmRotateIp"))
    case "reregister_network" => Always(Some("device.confirmReregister"))
    case "set_radio" => When("enabled", Bool(false), Some("device.confirmRadioOff"), Always(None))
    case "set_data_network" => When("enabled", Bool(false), Some("device.confirmDataOff"), Always(None))
    case "rename_esim_profile" => Always(None)
    case "disable_esim_profile" => Always(Some("device.confirmDisableProfile"))
    case "delete_esim_profile" => Always(Some("device.confirmDeleteProfile"))
    case "claim_modem_candidate" => Always(Some("device.confirmClaimCandidate"))
    case "revoke_modem_candidate" => Always(Some("device.confirmRevokeCandidate"))
    case "register_modem" => Always(None)
    case "unregister_modem" => Always(Some("device.confirmUnregister"))
    case "create_modem" => Always(Some("device.confirmCreateModem"))
    case "update_modem" => Always(None)
    case "reconfirm_modem" => Always(None)
    case "read_logs" => Always(None)
    case "configure_apn" => Always(Some("device.confirmConfigureApn"))
    case "select_operator" => When("mode", Str("manual"), Some("device.confirmSelectOperator"), Always(None))
    case "set_usbnet_mode" =>
      When("usbnet_mode", Str("rmnet"), Some("device.confirmUsbnetRmnet"), Always(Some("device.confirmUsbnet")))
    case "send_ussd" =>
      When("stage", Str("cancel"), None,
           When("stage", Str("continue"), Some("device.confirmUssdReply"), Always(Some("device.confirmUssdSend"))))
    case "run_at_command" => Always(None)
    case "list_esim_profiles" => Always(None)
    case "read_esim_info" => Always(None)
    case "retrieve_esim_notification" => Always(None)
    case "initiate_esim_authentication" => Always(None)
    case "switch_esim_profile" => Always(Some("esim.confirmSwitch"))
    case "download_esim_profile" => Always(Some("esim.dlWarn"))
    case _ => []
  }

  predicate Applies(v: Variant, payload: Payload) {
    forall field <- v.when :: field in payload && payload[field] == v.when[field]
  }

  function FirstVariant(variants: seq<Variant>, payload: Payload): Option<string> {
    if variants == [] then Some(UNKNOWN_COMMAND)
    else if Applies(variants[0], payload) then variants[0].consequence
    else FirstVariant(variants[1..], payload)
  }

  /** The consequence to confirm, or None for a command that goes straight out. `text` is JavaScript's `String(...)`. */
  function DeviceCommandGuard(kind: string, payload: Payload, text: Json -> string): Option<string> {
    if kind == "run_at_command" then
      var typed := if "command" !in payload || payload["command"].Null? then "" else text(payload["command"]);
      var guard := AtGuards.AtCommandGuard(typed);
      if guard.Some? then Some(guard.value.consequence) else Variants("run_at_command")[0].consequence
    else if Variants(kind) == [] then Some(UNKNOWN_COMMAND)
    else FirstVariant(Variants(kind), payload)
  }

  /** The loop over an entry's variants. */
  method FindConsequence(kind: string, payload: Payload) returns (consequence: Option<string>)
    ensures consequence == FirstVariant(Variants(kind), payload)
  {
    var variants := Variants(kind);
    for n := 0 to |variants|
      invariant FirstVariant(variants[n..], payload) == FirstVariant(variants, payload)
    {
      assert variants[n..][1..] == variants[n + 1..];
      if Applies(variants[n], payload) { return variants[n].consequence; }
    }
    return Some(UNKNOWN_COMMAND);
  }

  lemma {:induction false} FirstVariantIsFirst(variants: seq<Variant>, payload: Payload) returns (i: nat)
    requires variants != [] && variants[|variants| - 1].when == map[]
    ensures i < |variants| && Applies(variants[i], payload)
            && FirstVariant(variants, payload) == variants[i].consequence
    ensures forall j | 0 <= j < i :: !Applies(variants[j], payload)
  {
    if Applies(variants[0], payload) {
      i := 0;
    } else {
      var k := FirstVariantIsFirst(variants[1..], payload);
      i := k + 1;
      assert forall j | 0 < j < i :: variants[j] == variants[1..][j - 1];
    }
  }

  /** The lookup is total: a listed command gets the answer of the first case that applies, never the fallback;
      and a command that is not listed always has to be confirmed. */
  lemma LookupIsTotal(kind: string, payload: Payload, text: Json -> string)
    ensures Variants(kind) == [] ==> DeviceCommandGuard(kind, payload, text) == Some(UNKNOWN_COMMAND)
    ensures Variants(kind) != [] && kind != "run_at_command" ==>
              exists i | 0 <= i < |Variants(kind)| ::
                FirstToApply(Variants(kind), payload, i)
                  && DeviceCommandGuard(kind, payload, text) == Variants(kind)[i].consequence
    ensures Variants(kind) != [] ==> DeviceCommandGuard(kind, payload, text) != Some(UNKNOWN_COMMAND)
  {
    if kind == "run_at_command" {
      AtCommandNeverFallsBack(payload, text);
    } else if Variants(kind) != [] {
      var i := EntryAnswers(Variants(kind), payload);
    }
  }

  lemma AtCommandNeverFallsBack(payload: Payload, text: Json -> string)
    ensures DeviceCommandGuard("run_at_command", payload, text) != Some(UNKNOWN_COMMAND)
  {
    var typed := if "command" !in payload || payload["command"].Null? then "" else text(payload["command"]);
    AtCommandEntry();
    AtGuardIsNoFallback(typed);
  }

  lemma AtCommandEntry()
    ensures Variants("run_at_command") == Always(None)
  {
  }

  lemma AtGuardIsNoFallback(typed: string)
    ensures var guard := AtGuards.AtCommandGuard(typed); guard.Some? ==> guard.value.consequence != UNKNOWN_COMMAND
  {
    FirstGuardIsListed(AtGuards.AT_COMMAND_GUARDS, Texts.Trim(typed));
    AtConsequencesAreTheirOwn();
  }

  lemma AtConsequencesAreTheirOwn()
    ensures forall g <- AtGuards.AT_COMMAND_GUARDS :: g.consequence != UNKNOWN_COMMAND
  {
  }

  lemma {:induction false} FirstGuardIsListed(guards: seq<AtGuards.AtGuard>, typed: string)
    ensures AtGuards.FirstGuard(guards, typed).Some? ==> AtGuards.FirstGuard(guards, typed).value in guards
  {
    if guards != [] { FirstGuardIsListed(guards[1..], typed); }
  }

  ghost predicate FirstToApply(variants: seq<Variant>, payload: Payload, i: nat)
    requires i < |variants|
  {
    Applies(variants[i], payload) && forall j | 0 <= j < i :: !Applies(variants[j], payload)
  }

  lemma EntryAnswers(variants: seq<Variant>, payload: Payload) returns (i: nat)
    requires WellShaped(variants)
    ensures i < |variants| && FirstToApply(variants, payload, i)
    ensures FirstVariant(variants, payload) == variants[i].consequence
            && variants[i].consequence != Some(UNKNOWN_COMMAND)
  {
    i := FirstVariantIsFirst(variants, payload);
    assert variants[i] in variants;
  }

  lemma {:induction false} FirstVariantLooksAtItsFields(variants: seq<Variant>, p: Payload, q: Payload)
    requires forall v <- variants :: v.when.Keys <= ASKED_FIELDS
    requires forall f <- ASKED_FIELDS :: (f in p <==> f in q) && (f in p ==> p[f] == q[f])
    ensures FirstVariant(variants, p) == FirstVariant(variants, q)
  {
    if variants != [] {
      assert variants[0] in variants;
      assert Applies(variants[0], p) <==> Applies(variants[0], q);
      FirstVariantLooksAtItsFields(variants[1..], p, q);
    }
  }

  /** Two payloads that agree on the asked fields get the same answer, whichever module each is aimed at. */
  lemma GuardLooksAtItsFields(kind: string, p: Payload, q: Payload, text: Json -> string)
    requires forall f <- ASKED_FIELDS :: (f in p <==> f in q) && (f in p ==> p[f] == q[f])
    ensures DeviceCommandGuard(kind, p, text) == DeviceCommandGuard(kind, q, text)
  {
    assert "command" in ASKED_FIELDS;
    FirstVariantLooksAtItsFields(Variants(kind), p, q);
  }
}
