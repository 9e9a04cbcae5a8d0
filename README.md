# E2EEChat session store, modelled in Dafny

E2EEChat keeps ephemeral chat sessions. A session is named by a secret key: 16
random bytes rendered as 32 lower-case hex digits. The same key string is the
AES-256-CBC key for every message of the session. Each session is one file of
records `{message, timestamp}` in the storage directory. `message` is
`base64(iv || ciphertext)`, with a fresh 16-byte IV per message.

The model covers the session logic of `E2EEchat.php`:

- `encoding.dfy` (module `Encoding`): bytes, `bin2hex`, and session key generation. A reference decoder `HexDecode` is the partner that shows the rendering loses nothing.
- `crypto.dfy` (module `Crypto`): the blob framing. It covers the split of decoded bytes into IV and ciphertext and the encrypt/decrypt pair. AES-256-CBC and base64 are a `Primitives` record of total functions. `Lawful` states the round-trip facts assumed about them.
- `store.dfy` (module `Store`): the storage directory as a class `ChatStore`. It holds the map `logs` from session key to the ordered record sequence, and has one member per store function. A ghost map `sent` records the plaintexts sent to each session. The invariant `Valid` says every stored record decrypts under its session key to the text sent at that position. `History(key)` is the conversation a key holder may read back.
- `wrappers.dfy`: `Option`. PHP's `false` from `openssl_decrypt` and from `saveMessage` becomes `None`.

Random bytes, the IV and the timestamp are parameters, so every operation is
deterministic. The decrypting `foreach` loop shared by `saveMessage` and
`getMessages` is the method `DecryptRecords`.

In these places the code behaves differently from what a reader might expect; the model follows the code:

- `saveMessage` on an unknown key returns `false`, not a separate not-found error.
- A record that fails to decrypt appears in the returned history as `false` (`None`); the rest of the history is still returned.
- Appends are a plain read-modify-write with no lock.

## Model

| member | source | states |
|---|---|---|
| Encoding.HexEncode | E2EEchat.php:14 | `bin2hex` output has two lower-case hex digits per byte, high nibble first |
| Encoding.HexRoundTrip | E2EEchat.php:14 | decoding the hex rendering gives back exactly the random bytes |
| Encoding.GenerateRandomKey | E2EEchat.php:13-15 | a key from `KEY_LENGTH` = 16 bytes is 32 characters, all in `[0-9a-f]`, and determines its bytes |
| Encoding.KeysDistinct | E2EEchat.php:13-15 | two keys are equal iff they came from the same random bytes |
| Crypto.Unframe | E2EEchat.php:25-27 | the two `substr` calls split the decoded blob into an IV of `min(16, length)` bytes and the rest, losing nothing |
| Crypto.UnframeFrame | E2EEchat.php:20-27 | splitting `iv . ciphertext` at the IV length gives back that IV and ciphertext |
| Crypto.DecryptMessage | E2EEchat.php:23-29 | the blob is base64-decoded and split by `Unframe` into an IV of min(16, length) bytes and the rest; whenever the decoded bytes are a 16-byte IV followed by a ciphertext, exactly that ciphertext is decrypted under exactly that IV; with lawful primitives a blob that decodes to 16 bytes or fewer (no ciphertext left after the IV) yields `false` (`None`), and a blob from `EncryptMessage` decrypts to `Some(message)` (stated in `EncryptMessage`'s contract) |
| Crypto.EncryptMessage | E2EEchat.php:17-21 | with lawful cipher and base64, the blob frames this IV and ciphertext and `decryptMessage` on it yields the original message |
| Store.DecryptRecords | E2EEchat.php:66-68 | the decrypting loop yields one entry per record, in stored order: the record's decryption and its unchanged timestamp |
| Store.SealedDecrypts | E2EEchat.php:65-70 | a log whose records each decrypt to the sent texts decrypts to exactly that conversation, timestamps preserved |
| Store.ChatStore.constructor | E2EEchat.php:7-10 | the storage directory starts with no sessions |
| Store.ChatStore.ValidateKey | E2EEchat.php:43-46 | a key is valid iff a log exists for it, which is iff the session has a conversation |
| Store.ChatStore.CreateChatSession | E2EEchat.php:31-41 | the generated key now maps to an empty log, replacing any log already there; the key validates, its history is empty, no other key changes |
| Store.ChatStore.SaveMessage | E2EEchat.php:48-71 | absent key: returns false and nothing changes; present key: exactly one record (blob, timestamp) is appended at the end and no other key changes; it returns the full history, one longer, earlier entries unchanged, last entry the sent text with its timestamp |
| Store.ChatStore.GetMessages | E2EEchat.php:73-88 | absent key: empty; present key: every record decrypted in stored order, which is the conversation sent; the store is not changed |
| Store.ChatStore.DeleteChatSession | E2EEchat.php:90-99 | returns true iff the key was present; afterwards the key is absent, does not validate, has empty history, and no other key changes |

`Store.ChatSession` is a client of the class. It checks that the contracts
chain: create, fetch (empty), send "a", send "b", fetch `["a", "b"]`, delete,
fetch (empty), send (false).

## Left out

- AES-256-CBC, PKCS#7 padding and the `openssl_*` calls are not modelled. `Primitives` holds them as caller-supplied total functions. Every property that needs them assumes `Lawful`: decryption under the same key and a 16-byte IV undoes encryption, and an empty ciphertext never decrypts.
- `openssl_encrypt` with options `0` returns its ciphertext base64-encoded, so a blob is base64 of IV plus base64 text. That inner encoding is part of the abstract `encrypt`/`decrypt` pair.
- base64 is modelled only as an abstract encoder/decoder pair with `decode(encode(b)) == b`. Lenient decoding of non-base64 input is whatever the abstract decoder does.
- Wrong-key behaviour is not modelled: an abstract cipher cannot show that decrypting under another key never yields the message.
- The JSON file format (`json_encode`/`json_decode`) is not modelled. A log is stored as the record sequence itself, so a file that does not parse cannot occur.
- Filesystem failures (`file_put_contents` or `unlink` failing) are not modelled, and neither is a pre-existing storage directory with files in it. The constructor starts from an empty directory.
- `random_bytes` and `date` become the parameters `random`, `iv` and `timestamp`. The model does not check the timestamp format, and it does not model the clock's ordering: a run of sends may carry timestamps that go backwards.
- Keys are compared as exact strings. The PHP code turns a key into the path `chat_sessions/<key>.json`, so different strings that name the same file (`./abc` and `abc`) are not identified here.
- Store.ChatStore.ValidateKey / SaveMessage / DeleteChatSession: path traversal is not modelled. The PHP code builds the path `STORAGE_PATH . "/$key.json"` from an unchecked, user-supplied key (E2EEchat.php:44, 49, 74, 91). A key such as `../x` therefore reaches any `x.json` outside the storage directory that the store never created: `validateKey` returns true for it, `saveMessage` reads it, appends a `messages` entry and rewrites it, and `deleteChatSession` deletes it. The model's map holds only logs the store created. "A key is valid iff a log exists, iff the session has a conversation" holds only under that abstraction.
- Keys and plaintexts are Dafny strings (sequences of Unicode characters), whereas PHP strings are bytes. Nothing reachable is lost: keys the store creates are hex digits, and sent text is the output of `htmlspecialchars`, which is valid UTF-8. Arbitrary byte strings that are not valid text are not modelled.
- `substr` follows PHP 8: for decoded data shorter than 16 bytes the IV is all of it and the ciphertext is empty, instead of PHP 7's `false`.
- Concurrency is not modelled. Each operation is atomic, so the lost update when two `saveMessage` calls race on one file is not captured.
- The HTTP dispatcher, the `htmlspecialchars` escaping of sent text (E2EEchat.php:101-140) and the HTML/JavaScript client are request plumbing and UI. They are not part of this model.
