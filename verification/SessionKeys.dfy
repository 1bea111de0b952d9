/** The one string a session is keyed by: no two sessions share it. */
module SessionKeys {
  import opened Outcomes
  import opened Utf16
  import opened Json

  datatype SessionRef = SessionRef(storeId: Text, sessionId: Text)

  const Open: CodeUnit := 0x5B
  const Comma: CodeUnit := 0x2C
  const Shut: CodeUnit := 0x5D

  /** `JSON.stringify([ref.storeId, ref.sessionId])`. */
  function SessionRefKey(ref: SessionRef): Text {
    [Open] + Encode(ref.storeId) + [Comma] + Encode(ref.sessionId) + [Shut]
  }

  /** Reads a JSON array of two strings, and nothing else. */
  function ReadKey(t: Text): Option<SessionRef> {
    if |t| < 2 || t[0] != Open || t[1] != Quote then None
    else
      var store := Scan(t[2..]);
      if store.None? then None
      else
        var middle := store.value.rest;
        if |middle| < 2 || middle[0] != Comma || middle[1] != Quote then None
        else
          var session := Scan(middle[2..]);
          if session.None? || session.value.rest != [Shut] then None
          else Some(SessionRef(store.value.value, session.value.value))
  }

  /** The key reads back as the ref, for every pair of strings. */
  lemma KeyReadsBack(ref: SessionRef)
    ensures ReadKey(SessionRefKey(ref)) == Some(ref)
  {
    var a, b := ref.storeId, ref.sessionId;
    var key := SessionRefKey(ref);
    var after := [Comma] + Encode(b) + [Shut];
    assert key == [Open, Quote] + (Body(a) + [Quote] + after);
    assert key[2..] == Body(a) + [Quote] + after;
    ScanUndoesBody(a, after);
    assert after == [Comma, Quote] + (Body(b) + [Quote] + [Shut]);
    assert after[2..] == Body(b) + [Quote] + [Shut];
    ScanUndoesBody(b, [Shut]);
  }

  /** Two refs with one key are one ref: quotes, backslashes, control characters and lone surrogates included. */
  lemma KeyIsInjective(left: SessionRef, right: SessionRef)
    requires SessionRefKey(left) == SessionRefKey(right)
    ensures left == right
  {
    KeyReadsBack(left);
    KeyReadsBack(right);
  }
}
