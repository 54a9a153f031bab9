/** Names of a pending dividend action: its storage key and its button's callback data. */
module PendingDividend {
  import opened Wrappers
  import opened GoInt
  import opened Decimal
  import opened StockPortfolio

  const CALLBACK_PREFIX := "stock_div:"
  const PENDING_PREFIX := "pending-dividend:"
  const MAX_CALLBACK: int := 64

  function PendingKey(user: int, eventId: string): string { PENDING_PREFIX + Itoa(user) + ":" + eventId }

  function CallbackData(user: int, eventId: string): Option<string> {
    if user <= 0 || !IsProviderId(eventId) then None
    else
      var data := CALLBACK_PREFIX + Itoa(user) + ":" + eventId;
      if |data| > MAX_CALLBACK then None else Some(data)
  }

  function ParseCallback(data: string): Option<(int, string)> {
    if |data| > MAX_CALLBACK || !(CALLBACK_PREFIX <= data) then None
    else
      var rest := data[|CALLBACK_PREFIX|..];
      var cut := Find(rest, ':');
      if cut == |rest| || !IsProviderId(rest[cut + 1..]) then None
      else
        var owner := ParseInt64(rest[..cut]);
        if owner.None? || owner.value <= 0 then None else Some((owner.value, rest[cut + 1..]))
  }

  /** A press recovers the user and event its button was made for. */
  lemma {:induction false} CallbackRoundTrip(user: int, eventId: string)
    requires user <= MAX_INT64
    ensures CallbackData(user, eventId).Some? <==>
              0 < user && IsProviderId(eventId) && |"stock_div:"| + |Itoa(user)| + 1 + |eventId| <= 64
    ensures CallbackData(user, eventId).Some? ==>
              ParseCallback(CallbackData(user, eventId).value) == Some((user, eventId))
  {
    if CallbackData(user, eventId).Some? {
      var data := CallbackData(user, eventId).value;
      var rest := Itoa(user) + ":" + eventId;
      assert data == CALLBACK_PREFIX + rest;
      assert data[|CALLBACK_PREFIX|..] == rest;
      FindSeparator(user, ':', eventId);
      assert rest == Itoa(user) + [':'] + eventId;
      assert rest[..|Itoa(user)|] == Itoa(user) && rest[|Itoa(user)| + 1..] == eventId;
      ParseOfItoa(user);
    }
  }

  /** One key per user and event: two suggestions share a key only when they are for the same one. */
  lemma {:induction false} PendingKeyInjective(u: int, e: string, v: int, f: string)
    ensures PendingKey(u, e) == PendingKey(v, f) <==> u == v && e == f
  {
    if PendingKey(u, e) == PendingKey(v, f) {
      assert Itoa(u) + [':'] + e == PendingKey(u, e)[|PENDING_PREFIX|..];
      assert Itoa(v) + [':'] + f == PendingKey(v, f)[|PENDING_PREFIX|..];
      ItoaPrefix(u, v, ':', e, f);
    }
  }
}
