/** The field tables the console ships, and that the settings proofs apply to them. */
module SettingsTables {
  import opened Settings

  const NOTIFICATION_FIELDS: seq<SettingsField> := [
    SettingsField("webhook.enabled", Boolean),
    SettingsField("webhook.urls", List),
    SettingsField("webhook.secret", Secret),
    SettingsField("email.enabled", Boolean),
    SettingsField("email.smtp_host", Text),
    SettingsField("email.smtp_port", Number),
    SettingsField("email.username", Text),
    SettingsField("email.password", Secret),
    SettingsField("email.from_address", Text),
    SettingsField("email.to_addresses", List),
    SettingsField("bark.enabled", Boolean),
    SettingsField("bark.urls", List),
    SettingsField("telegram.enabled", Boolean),
    SettingsField("telegram.chat_id", Text),
    SettingsField("telegram.bot_token", Secret),
    SettingsField("telegram.bot.enabled", Boolean),
    SettingsField("telegram.bot.operators", List),
    SettingsField("feishu.enabled", Boolean),
    SettingsField("feishu.webhook_url", Text),
    SettingsField("feishu.secret", Secret),
    SettingsField("wecom.enabled", Boolean),
    SettingsField("wecom.webhook_url", Text),
    SettingsField("pushplus.enabled", Boolean),
    SettingsField("pushplus.token", Secret),
    SettingsField("pushplus.topic", Text)
  ]

  const SMS_FIELDS: seq<SettingsField> := [SettingsField("hourly_limit", Number)]
  const DEVICE_FIELDS: seq<SettingsField> := [SettingsField("device_quota", Number)]
  const SECURITY_FIELDS: seq<SettingsField> := [SettingsField("session_ttl_hours", Number)]

  /** A field inside another has the other's path, and a dot or nothing more, at its front. */
  lemma {:induction false} KeyPrefixIsTextPrefix(p: string, q: string)
    requires Keys(p) <= Keys(q)
    ensures p <= q
  {
    var a, b := Keys(p), Keys(q);
    if p != "" {
      if q == "" {
        KeysAreNotEmpty(p);
      } else {
        KeysByHead(p);
        KeysByHead(q);
        assert a[0] == b[0];
        if p[0] == '.' || q[0] == '.' {
          assert p[0] == q[0];
          assert a[1..] <= b[1..];
          KeyPrefixIsTextPrefix(p[1..], q[1..]);
        } else {
          assert a[0][0] == b[0][0];
          var x, y := Keys(p[1..]), Keys(q[1..]);
          assert x[0] == a[0][1..] == b[0][1..] == y[0];
          assert x == [x[0]] + a[1..] && y == [y[0]] + b[1..];
          assert x <= y;
          KeyPrefixIsTextPrefix(p[1..], q[1..]);
        }
        assert p == [p[0]] + p[1..] && q == [q[0]] + q[1..];
      }
    }
  }

  lemma KeysByHead(p: string)
    requires p != ""
    ensures p[0] == '.' ==> Keys(p) == [""] + Keys(p[1..])
    ensures p[0] != '.' ==> Keys(p) == [[p[0]] + Keys(p[1..])[0]] + Keys(p[1..])[1..]
  {
  }

  lemma KeysAreNotEmpty(p: string)
    requires p != ""
    ensures !(Keys(p) <= Keys(""))
  {
    KeysByHead(p);
    assert Keys("") == [""];
    assert |Keys(p)| > 1 || Keys(p)[0] != "";
  }

  function CharAt(s: string, k: nat): char {
    if k < |s| then s[k] else ' '
  }

  /** Tells the table's paths apart by a few of their characters. */
  function Place(path: string): nat {
    (match CharAt(path, 6)
      case 'k' => (match CharAt(path, 8)
        case 'e' => 0
        case 'u' => 1
        case 's' => 2
        case _ => 25)
      case 'e' => (match CharAt(path, 0)
        case 'e' => 3
        case 'w' => 20
        case _ => 25)
      case 's' => (match CharAt(path, 11)
        case 'h' => 4
        case 'p' => 5
        case _ => 25)
      case 'u' => (match CharAt(path, 12)
        case 'm' => 6
        case 'b' => 22
        case 'e' => 23
        case 'i' => 24
        case _ => 25)
      case 'p' => 7
      case 'f' => 8
      case 't' => 9
      case 'n' => 10
      case 'r' => 11
      case 'a' => (match CharAt(path, 13)
        case 'l' => 12
        case '_' => 13
        case 't' => 14
        case 'e' => 15
        case 'o' => 16
        case _ => 25)
      case '.' => (match CharAt(path, 7)
        case 'e' => 17
        case 'w' => 18
        case 's' => 19
        case _ => 25)
      case 'w' => 21
      case _ => 25)
  }

  /** `q` begins with the characters of `p`. */
  ghost predicate Begins(p: string, q: string) {
    forall k: nat :: k < |p| ==> CharAt(q, k) == p[k]
  }

  lemma FrontDecidesFirst(i: nat, q: string)
    requires i < 9 && Begins(NOTIFICATION_FIELDS[i].path, q)
    ensures Place(q) == i
  {
  }

  lemma FrontDecidesSecond(i: nat, q: string)
    requires 9 <= i < 13 && Begins(NOTIFICATION_FIELDS[i].path, q)
    ensures Place(q) == i
  {
  }

  lemma FrontDecidesThird(i: nat, q: string)
    requires 13 <= i < 17 && Begins(NOTIFICATION_FIELDS[i].path, q)
    ensures Place(q) == i
  {
  }

  lemma FrontDecidesLast(i: nat, q: string)
    requires 17 <= i < |NOTIFICATION_FIELDS| && Begins(NOTIFICATION_FIELDS[i].path, q)
    ensures Place(q) == i
  {
  }

  lemma FrontDecides(i: nat, q: string)
    requires i < |NOTIFICATION_FIELDS| && NOTIFICATION_FIELDS[i].path <= q
    ensures Place(q) == i
  {
    var p := NOTIFICATION_FIELDS[i].path;
    assert Begins(p, q);
    if i < 9 {
      FrontDecidesFirst(i, q);
    } else if i < 13 {
      FrontDecidesSecond(i, q);
    } else if i < 17 {
      FrontDecidesThird(i, q);
    } else {
      FrontDecidesLast(i, q);
    }
  }

  /** `telegram.bot.*` beside `telegram.bot_token` included, no notification field lives inside another. */
  lemma ShippedTablesArePrefixFree()
    ensures PrefixFree(NOTIFICATION_FIELDS) && PrefixFree(SMS_FIELDS) && PrefixFree(DEVICE_FIELDS)
            && PrefixFree(SECURITY_FIELDS)
  {
    forall i, j | 0 <= i < |NOTIFICATION_FIELDS| && 0 <= j < |NOTIFICATION_FIELDS| && i != j
      ensures !(Keys(NOTIFICATION_FIELDS[i].path) <= Keys(NOTIFICATION_FIELDS[j].path))
    {
      NotInside(i, j);
    }
  }

  lemma NotInside(i: nat, j: nat)
    requires i < |NOTIFICATION_FIELDS| && j < |NOTIFICATION_FIELDS|
    ensures Keys(NOTIFICATION_FIELDS[i].path) <= Keys(NOTIFICATION_FIELDS[j].path) ==> i == j
  {
    if Keys(NOTIFICATION_FIELDS[i].path) <= Keys(NOTIFICATION_FIELDS[j].path) {
      KeyPrefixIsTextPrefix(NOTIFICATION_FIELDS[i].path, NOTIFICATION_FIELDS[j].path);
      FrontDecides(i, NOTIFICATION_FIELDS[j].path);
      FrontDecides(j, NOTIFICATION_FIELDS[j].path);
    }
  }
}
