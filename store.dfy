/**
 * The session store: the storage directory seen as a map from session key to
 * the session's log of encrypted records, and the five operations on it.
 */
module Store {
  import opened Wrappers
  import opened Encoding
  import opened Crypto

  /** A stored record: the encrypted blob and the time it was appended. */
  datatype Record = Record(message: string, timestamp: string)

  /** A returned record: the decrypted text, None where decryption gave false. */
  datatype Message = Message(message: Option<string>, timestamp: string)

  /** Every record of a log decrypted under the session key, in stored order. */
  function Decrypted(p: Primitives, key: Key, log: seq<Record>): seq<Message>
  {
    seq(|log|, i requires 0 <= i < |log| => Message(DecryptMessage(p, key, log[i].message), log[i].timestamp))
  }

  /**
   * The decrypting `foreach` of `saveMessage` and `getMessages`: replaces each
   * record's blob by its decryption, keeping the timestamps.
   */
  method DecryptRecords(p: Primitives, key: Key, log: seq<Record>) returns (msgs: seq<Message>)
    ensures msgs == Decrypted(p, key, log)
  {
    msgs := [];
    var i := 0;
    while i < |log|
      invariant 0 <= i <= |log|
      invariant |msgs| == i
      invariant forall j :: 0 <= j < i ==> msgs[j] == Message(DecryptMessage(p, key, log[j].message), log[j].timestamp)
    {
      msgs := msgs + [Message(DecryptMessage(p, key, log[i].message), log[i].timestamp)];
      i := i + 1;
    }
  }

  /** Each record of `log` decrypts under `key` to the text sent at that position. */
  ghost predicate Sealed(p: Primitives, key: Key, log: seq<Record>, texts: seq<string>) {
    && |log| == |texts|
    && forall i :: 0 <= i < |log| ==> DecryptMessage(p, key, log[i].message) == Some(texts[i])
  }

  /** The conversation as its participants see it: the sent texts with their timestamps. */
  function Conversation(texts: seq<string>, log: seq<Record>): seq<Message>
    requires |texts| == |log|
  {
    seq(|log|, i requires 0 <= i < |log| => Message(Some(texts[i]), log[i].timestamp))
  }

  /** A sealed log decrypts to its conversation: no record is lost or garbled. */
  lemma SealedDecrypts(p: Primitives, key: Key, log: seq<Record>, texts: seq<string>)
    requires Sealed(p, key, log, texts)
    ensures Decrypted(p, key, log) == Conversation(texts, log)
  {
  }

  class ChatStore {
    /** The cipher and base64 codec every operation uses. */
    const prims: Primitives
    /** The storage directory: one log per session key. */
    var logs: map<Key, seq<Record>>
    /** The plaintexts sent to each session, in order. */
    ghost var sent: map<Key, seq<string>>

    ghost predicate Valid()
      reads this
    {
      && Lawful(prims)
      && logs.Keys == sent.Keys
      && forall k :: k in logs ==> Sealed(prims, k, logs[k], sent[k])
    }

    /** What a holder of `key` is entitled to read back: empty for an absent session. */
    ghost function History(key: Key): seq<Message>
      reads this
      requires Valid()
    {
      if key in logs then Conversation(sent[key], logs[key]) else []
    }

    /** `validateKey`: a session is valid exactly when its log exists, that is, when it has a conversation. */
    predicate ValidateKey(key: Key)
      reads this
      ensures Valid() ==> (ValidateKey(key) <==> key in sent)
    {
      key in logs
    }

    /** An empty storage directory. */
    constructor (p: Primitives)
      requires Lawful(p)
      ensures Valid() && prims == p
      ensures logs == map[] && sent == map[]
    {
      prims := p;
      logs := map[];
      sent := map[];
    }

    /**
     * `createChatSession`, with the random bytes as a parameter: writes an
     * empty log under the new key, replacing any log already there.
     */
    method CreateChatSession(random: Bytes) returns (key: Key)
      requires Valid() && |random| == KeyLength
      modifies this
      ensures Valid()
      ensures key == GenerateRandomKey(random)
      ensures logs == old(logs)[key := []]
      ensures sent == old(sent)[key := []]
      ensures ValidateKey(key) && History(key) == []
    {
      key := GenerateRandomKey(random);
      logs := logs[key := []];
      sent := sent[key := []];
    }

    /**
     * `saveMessage`, with the IV and the timestamp as parameters. An absent
     * session yields None (PHP's false) and nothing changes; otherwise one
     * record is appended and the whole decrypted log is returned.
     */
    method SaveMessage(key: Key, message: string, iv: Bytes, timestamp: string) returns (r: Option<seq<Message>>)
      requires Valid() && |iv| == IvLength
      modifies this
      ensures Valid()
      ensures r.None? <==> key !in old(logs)
      ensures r.None? ==> logs == old(logs) && sent == old(sent)
      ensures r.Some? ==>
        && logs == old(logs)[key := old(logs)[key] + [Record(EncryptMessage(prims, key, iv, message), timestamp)]]
        && sent == old(sent)[key := old(sent)[key] + [message]]
      ensures r.Some? ==>
        && r.value == History(key)
        && |r.value| == |old(History(key))| + 1
        && r.value[..|r.value| - 1] == old(History(key))
        && r.value[|r.value| - 1] == Message(Some(message), timestamp)
    {
      if key !in logs {
        return None;
      }
      ghost var before := History(key);
      var log := logs[key] + [Record(EncryptMessage(prims, key, iv, message), timestamp)];
      logs := logs[key := log];
      sent := sent[key := sent[key] + [message]];
      var msgs := DecryptRecords(prims, key, log);
      SealedDecrypts(prims, key, log, sent[key]);
      r := Some(msgs);
      assert msgs[..|msgs| - 1] == before;
    }

    /** `getMessages`: the decrypted log, or empty for an absent session; the store is not changed. */
    method GetMessages(key: Key) returns (msgs: seq<Message>)
      requires Valid()
      ensures key !in logs ==> msgs == []
      ensures key in logs ==> msgs == Decrypted(prims, key, logs[key])
      ensures msgs == History(key)
    {
      if key !in logs {
        return [];
      }
      msgs := DecryptRecords(prims, key, logs[key]);
      SealedDecrypts(prims, key, logs[key], sent[key]);
    }

    /** `deleteChatSession`: removes the log, reporting whether there was one. */
    method DeleteChatSession(key: Key) returns (deleted: bool)
      requires Valid()
      modifies this
      ensures Valid()
      ensures deleted <==> key in old(logs)
      ensures logs == old(logs) - {key}
      ensures sent == old(sent) - {key}
      ensures !ValidateKey(key) && History(key) == []
    {
      deleted := key in logs;
      logs := logs - {key};
      sent := sent - {key};
    }
  }

  /** A client of the store: create, send twice, read back, delete. */
  method ChatSession(p: Primitives, random: Bytes, iv1: Bytes, iv2: Bytes, t1: string, t2: string)
    requires Lawful(p) && |random| == KeyLength && |iv1| == IvLength && |iv2| == IvLength
  {
    var store := new ChatStore(p);
    var key := store.CreateChatSession(random);
    assert store.ValidateKey(key);
    var initial := store.GetMessages(key);
    assert initial == [];
    var r1 := store.SaveMessage(key, "a", iv1, t1);
    assert r1.value == [Message(Some("a"), t1)];
    var r2 := store.SaveMessage(key, "b", iv2, t2);
    assert r2.value == r2.value[..1] + [r2.value[1]];
    assert r2.value == [Message(Some("a"), t1), Message(Some("b"), t2)];
    var all := store.GetMessages(key);
    assert all == [Message(Some("a"), t1), Message(Some("b"), t2)];
    var deleted := store.DeleteChatSession(key);
    assert deleted && !store.ValidateKey(key);
    var gone := store.GetMessages(key);
    assert gone == [];
    var again := store.SaveMessage(key, "c", iv1, t1);
    assert again == None;
  }
}
