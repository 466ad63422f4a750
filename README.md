# evi-run bot core in Dafny

This project models the deterministic core of the evi-run Telegram bot in Dafny and proves properties of it. The bot routes user messages to an LLM agent, renders the answers back into Telegram, and handles credits and crypto payments.

The model covers the following parts of the bot:

- **The answer re-chunker** `split_code_message` (`SendAnswer`). It cuts a long Telegram-HTML answer into chunks of about `chunk_size` characters. At every cut it closes the tags that are still open and reopens them at the start of the next chunk.
- **The payment amounts** of the balance dialog (`Balance`, `Decimals`):
  - the check on the USD sum the user types;
  - `apply_suffix`, which stamps a 4-digit random suffix into the last fraction digits of the crypto amount;
  - `generate_amount`, which formats that amount.
- **Payment confirmation** (`CheckPayment`):
  - conversion of the stored amount to integer base units;
  - the scan of the TonAPI events for a TON transfer;
  - the scan of the Solana transactions for an SPL-token transfer, with its retry rule.
- **The MCP server registry** (`McpServers`). It holds one shared DexPaprika server and a least-recently-used cache of at most 20 per-user Jupiter servers.
- **The two repositories** (`Tables`, `UserRepo`, `UtilsRepo`). The database tables are fields of one `Database` object.
  - `UserRepository` covers users, chat history, wallet keys, memory vector stores and payments.
  - `UtilsRepository` covers the SOL price row, the knowledge vector store, payment-suffix reuse, payment status and the daily credit top-up.
  - A wallet key is stored as UTF-8 (RFC 3629) and then base64 (section 4 of RFC 4648). `Utf8` and `Base64` model those encodings, and their round trips are proved.
- **Credit pricing** `calculate_tokens` (`CalculateTokens`).
- **SPL-Token account decoding** in `get_balances` (`SolanaFuncs`).
- **The inline keyboards and the user router** (`InlineKeyboards`, `UserRouter`):
  - the callback data each keyboard writes, and how the router reads it back;
  - the admission gate and 40-second request lock in front of the input handlers;
  - the document-format check;
  - the payment-check callback that credits a paid payment.
- **The agent request side** (`AgentRequests`):
  - the chat history mapped to model input, with stored photos read back as caption plus file;
  - the summed token usage;
  - the image record a text request picks up.

`Strings` models the Python string operations the core relies on: `str.split`, `split()[-1]`, `int()`, `str()` and `in`. `Options` holds the `Option` type.

External effects become inputs, so every operation is deterministic:

- the clock is a `now` argument in seconds;
- TonAPI events, Solana RPC answers, the agent run's output and usage, uploaded file bytes and fresh vector-store ids are all parameters;
- Redis keys are maps held by small classes: `RequestLocks` and `AgentRequests.ImageRecords`;
- configuration values (`TYPE_USAGE`, `ADMIN_ID`) are arguments. The credit constants are written in as `const`s.

## Re-chunker behaviour worth knowing

`SendAnswer` models bot/utils/send_answer.py as written. These are the consequences of that code:

- Inside `pre` and `code` blocks tags are scanned like anywhere else. Comments are not escaped, and badly nested tags are not repaired.
- A stray closing tag is copied through unchanged; it is not escaped. The open-tag list does not change.
- A closing tag whose name is open removes the bottom-most entry of that name (`list.remove`), not the top one.
- Reopening drops attributes. The only exception is that `blockquote` comes back as `blockquote expandable`.
- There is no safety margin. Each chunk holds `chunk_size` characters before its closers, and the closers come on top. For example, `'<b>' + 5000*'x' + '</b>'` with `chunk_size = 3900` gives a first chunk of 3904 characters.
- The tag search stops at `next_cut`, so a tag that straddles the cut is not matched. It is copied as text and torn across chunks. For example, `'<b>xy</b>'` with `chunk_size = 5` splits into `'<b>xy</b>'`, `'<b></</b>'` and `'<b>b></b>'` (`TornClosingTag`). A cut can likewise fall inside an `&...;` entity.
- Once the reopen prefix reaches `chunk_size`, the loop never ends. The model returns `Diverges` in that case.
- With `chunk_size <= 0` every non-empty text makes the loop run for ever: the window is empty or, for a negative size, the position moves backwards.

## Behaviour worth knowing

The model makes the following consequences of the code explicit:

- **`check_payment` callback** (bot/routers/user.py:196-218):
  - It does not look at the payment's status, so a confirmed payment that is checked again is credited again.
  - It credits the user who pressed the button, not the payment's `user_id`.
- **`md_answer`** (bot/routers/user.py:221-237) looks a message row up by id alone, whoever it belongs to.
- **`update`** (database/repositories/user.py:26-34) computes the new balance from the `User` object passed in, not from the stored row.
- **Empty wallet key:** a key stored as `""` reads back as "no wallet", because `if wallet:` is false.
- **Jupiter cache hit:** the cached server is returned and the new `private_key` is ignored.
- **Language callback data:** a language code containing `'_'` would be cut at the first `'_'` (`LanguageCutAtUnderscore`).
- **Photo caption:** a caption containing `'|'` loses everything up to its last `'|'` when the history is read back (`CaptionCutAtBar`).
- **`apply_suffix`** with a suffix longer than the fraction lengthens the fraction (`ApplySuffixLongSuffix`). `generate_amount` with 0 decimals raises (`GenerateAmountNoDecimals`).
- **Solana RPC errors** (bot/utils/check_payment.py:44-58): a `SolanaRpcException` only sleeps and asks again, so one that persists keeps the check, and the payment callback waiting on it, going for ever (`Hangs`, `Waiting`).
- **Token amount match** (bot/utils/check_payment.py:54): the amount is compared as text with `str(units)`, so only the canonical spelling matches; `"0100"` never matches 100 units.
- **Document names** (bot/routers/user.py:175): `split('.')[-1]` of a name without '.' is the whole name, so a file named just `pdf` is accepted as a PDF.
- **`send_answer.py` flush:** the flush before a tag at send_answer.py:71-74 can never fire. A match lies inside the window, so its start is before `next_cut`.

## Model

| member | source | states |
|---|---|---|
| SendAnswer.TagAt | bot/utils/send_answer.py:45 | a match of the tag pattern at `i` starts at `i` and ends inside the search window |
| SendAnswer.TagAtSound | bot/utils/send_answer.py:45 | what the scanner matches is a whole `<name...>` or `</name...>` tag, and group 1 and group 2 read as the pattern reads them |
| SendAnswer.SpellsAt | bot/utils/send_answer.py:45 | a `<`, an optional `/`, a maximal run of name characters and the text up to the first `>` spell a tag of that name, closing exactly when the `/` is there |
| SendAnswer.MatchSpells | bot/utils/send_answer.py:60 | a match returned by `search` ends inside the text, and the stretch it spans spells the tag that `group(1)` and `group(2)` describe |
| SendAnswer.TagAtComplete | bot/utils/send_answer.py:45 | every whole tag that fits in the window is found at its start, with its full length |
| SendAnswer.FindTag | bot/utils/send_answer.py:60 | `search(text, position, next_cut)` returns the leftmost match in the window, or None when no position in the window starts one |
| SendAnswer.SkippedTextHasNoTag | bot/utils/send_answer.py:62-64 | the text passed over before the next match (or up to the cut) contains no whole tag |
| SendAnswer.RemoveFirst | bot/utils/send_answer.py:80-81 | `open_tags.remove(name)` shortens the list by one and removes exactly one occurrence of the name |
| SendAnswer.ApplyTag | bot/utils/send_answer.py:79-83 | as a multiset of names, an opener adds its name and a closer takes one occurrence of its name away, if there is one |
| SendAnswer.ApplyTagEffect | bot/utils/send_answer.py:79-83 | an opener pushes its name; a closer whose name is open drops the first (bottom-most) entry of that name, the others keeping their order; a stray closer leaves the list unchanged |
| SendAnswer.EffectNames | bot/utils/send_answer.py:79-83 | the open-tag list only ever holds tag names |
| SendAnswer.RestorePrefix | bot/utils/send_answer.py:40 | text before the first '<' of the output is copied unchanged from the input |
| SendAnswer.RestoreExpandable | bot/utils/send_answer.py:40 | the replace never lengthens the text, since the replacement is shorter than what it replaces |
| SendAnswer.Normalise | bot/utils/send_answer.py:38-40 | with `type_` given the text is used as it is; otherwise no `&lt;blockquote expandable&gt;` is left in the converted text |
| SendAnswer.OpenerSpells | bot/utils/send_answer.py:50-51 | an opener written by `reopen_tags` is read back by the pattern as an opener of the same name |
| SendAnswer.CloserSpells | bot/utils/send_answer.py:47-48 | a closer written by `close_open_tags` is read back as a closer of the same name |
| SendAnswer.ReopenPieces | bot/utils/send_answer.py:50-51 | the reopen prefix is one opener per open tag in order of opening, and read as tags it rebuilds the open-tag list |
| SendAnswer.ReopenText | bot/utils/send_answer.py:50-51 | the reopen prefix is one opener per open tag, in order of opening |
| SendAnswer.ReopenTags | bot/utils/send_answer.py:50-51 | the reopen prefix has at least two characters per open tag |
| SendAnswer.ReopenEffect | bot/utils/send_answer.py:50-51 | read as tags from an empty list, the reopen prefix rebuilds the open-tag list |
| SendAnswer.ReopenWellFormed | bot/utils/send_answer.py:50-51 | when the list holds only tag names, every opener of the reopen prefix is a well-formed tag |
| SendAnswer.ClosePieces | bot/utils/send_answer.py:47-48 | the closer suffix is one closer per open tag, innermost first, and read as tags it closes everything that is open |
| SendAnswer.CloseTags | bot/utils/send_answer.py:47-48 | the closer suffix has at least three characters per open tag |
| SendAnswer.ChunkBalanced | bot/utils/send_answer.py:55-57 | a chunk (reopen prefix, body, closers) read as tags starts and ends with nothing open |
| SendAnswer.SplitChunksBalanced | bot/utils/send_answer.py:88-92 | chunk `k` of a split is its reopen prefix, then the scanner's own tokens of its stretch of the text, then its closers; read that way every tag in it is well formed, and it starts and ends with nothing open |
| SendAnswer.ShortTextOneChunk | bot/utils/send_answer.py:53-92 | a text shorter than `chunk_size` gives one chunk: the text followed by the closers of the tags the scanner's reading of it leaves open; an empty text gives no chunk |
| SendAnswer.ChunkSpan | bot/utils/send_answer.py:53-92 | chunk `k` covers a non-empty stretch of the text: it is the reopen prefix of the tags open before it, the stretch, and the closers of the tags the scanner leaves open after it; every chunk but the last holds exactly `chunk_size` characters before its closers, and the last ends at the end of the text |
| SendAnswer.SplitUnique | bot/utils/send_answer.py:53-92 | a text and a `chunk_size` have only one split: the chunks are determined |
| SendAnswer.InnerChunkEndsEarly | bot/utils/send_answer.py:53-64 | every chunk but the last stops before the end of the text |
| SendAnswer.TornClosingTag | bot/utils/send_answer.py:59-64 | with `chunk_size = 5`, `<b>xy</b>` splits into `<b>xy</b>`, `<b></</b>` and `<b>b></b>`: the closing tag straddles the cut and is torn |
| SendAnswer.RestoreLeavesNoEscaped | bot/utils/send_answer.py:40 | after the replace, no `&lt;blockquote expandable&gt;` remains in the text |
| SendAnswer.NoEscapedAfterLive | bot/utils/send_answer.py:40 | the inserted `<blockquote expandable>` holds no `&`, so no escaped opener can start in it |
| SendAnswer.NoEscapedAfterChar | bot/utils/send_answer.py:40 | a character copied unchanged cannot start an escaped opener in the output, since that opener would have been in the input and replaced |
| SendAnswer.FirstChunkIsPrefix | bot/utils/send_answer.py:53-86 | before the first cut, the chunk under construction is exactly the text read so far |
| SendAnswer.FinishSplits | bot/utils/send_answer.py:88-92 | the final flush completes a split of the whole text |
| SendAnswer.ReadWindow | bot/utils/send_answer.py:59-86 | one pass of the loop consumes at least one character, copies a matched tag whole, and keeps the loop invariant (the chunks so far split the text read) |
| SendAnswer.PlainKeeps | bot/utils/send_answer.py:62-64 | copying tag-free text that fits moves the position past it and adds it to the chunk, with the open tags unchanged |
| SendAnswer.ExtendPlain | bot/utils/send_answer.py:63 | a tag-free stretch adds its text to the chunk body and leaves the open tags as they were |
| SendAnswer.MatchKeeps | bot/utils/send_answer.py:76-86 | a matched tag that fits is copied whole, the position moves past it, and the open tags change as `append`/`remove` change them |
| SendAnswer.TagKeeps | bot/utils/send_answer.py:79-86 | appending a whole tag read from the text keeps the chunk's text equal to reopen prefix plus body, with the open tags updated |
| SendAnswer.FlushKeeps | bot/utils/send_answer.py:54-57 | cutting a full chunk stores a complete chunk and restarts from the reopen prefix, keeping the split invariant when that prefix is shorter than `chunk_size` |
| SendAnswer.CutChunk | bot/utils/send_answer.py:54-57 | the stored chunk is the full one followed by the closers of the open tags, and the new one starts with their reopen prefix |
| SendAnswer.FlushLast | bot/utils/send_answer.py:88-92 | the chunks returned split the whole text; with nothing pending no chunk is added |
| SendAnswer.SplitCodeMessage | bot/utils/send_answer.py:37-92 | when it returns, the chunks are the one split of the normalised text as the scanner reads it; it diverges only at a point where the chunks cut so far are full and split a proper prefix of the text as the scanner reads it, and the reopen prefix of the tags then open already holds `chunk_size` characters; with `chunk_size <= 0` it diverges exactly on non-empty text; a text shorter than `chunk_size`, or one without '<', always gets its chunks |
| Balance.CheckInputTextExactly | bot/dialogs/balance.py:28-35 | the sum is accepted exactly when it is a non-empty ASCII digit string with a digit other than '0' |
| Balance.CheckInputText | bot/dialogs/balance.py:28-35 | the sum is accepted exactly when it is a digit string that `int()` reads as at least 1 |
| Balance.CheckInputTextExamples | bot/dialogs/balance.py:28-35 | "0" and "00" are refused and "007" is accepted; "1.5", "" and no text are refused |
| Balance.SliceTo | bot/dialogs/balance.py:42 | Python's `s[:stop]`: a prefix of `s`, of length `stop` when in range and counted from the end when negative |
| Balance.ApplySuffixDefined | bot/dialogs/balance.py:39 | `apply_suffix` succeeds exactly when the base holds one '.' |
| Balance.ApplySuffix | bot/dialogs/balance.py:38-43 | a stamped amount ends with the suffix |
| Balance.ApplySuffixStamps | bot/dialogs/balance.py:38-43 | with a suffix no longer than the fraction, the integer part and the fraction's length are kept and the suffix replaces the last digits |
| Balance.ApplySuffixLongSuffix | bot/dialogs/balance.py:40-42 | with a suffix longer than the fraction, the first `2N-M` fraction digits survive and the fraction gets longer |
| Balance.StampedValue | bot/dialogs/balance.py:38-43 | read as a decimal, the stamped amount keeps every digit above the suffix and its last digits are the suffix |
| Balance.FormatFixedValue | bot/dialogs/balance.py:51 | the formatted amount reads back as the quotient rounded half-even to exactly `places` fraction digits |
| Balance.FormatFixedShape | bot/dialogs/balance.py:51 | with `places >= 1` the formatted amount is digits, '.', then exactly `places` digits |
| Balance.FormatFixed | bot/dialogs/balance.py:51 | with 0 places the amount is digits only; otherwise digits, '.', and exactly `places` digits |
| Balance.GenerateAmountNoDecimals | bot/dialogs/balance.py:51-53 | with 0 decimals `generate_amount` raises, because the formatted amount has no '.' |
| Balance.GenerateAmountStamps | bot/dialogs/balance.py:46-54 | the amount is the rounded quotient with its last `len(suffix)` digits replaced by the suffix, still with `places` fraction digits |
| Balance.GenerateAmount | bot/dialogs/balance.py:46-54 | a generated amount ends with the suffix |
| Decimals.RoundHalfEvenNearest | bot/utils/check_payment.py:21 | `to_integral_value()` rounds to a nearest integer, ties to even, and is exact on multiples |
| Decimals.RoundHalfEvenUnique | bot/utils/check_payment.py:21 | half-even rounding is the only rounding that is nearest with ties to even |
| Decimals.ParseFixed | bot/utils/check_payment.py:20 | `Decimal("whole.frac")` has all the digits as coefficient and the fraction's length as exponent |
| Decimals.ParseWhole | bot/utils/check_payment.py:20 | `Decimal` of a digit string without a point is that integer |
| Decimals.ToBaseUnits | bot/utils/check_payment.py:21 | an amount with at most `places` decimals converts exactly: coefficient times `10^(places-exp)` |
| Decimals.ScaleExact | bot/utils/check_payment.py:39 | scaling an amount up by `10^places` never needs rounding when it has at most `places` decimals |
| CheckPayment.CheckPaymentTon | bot/utils/check_payment.py:18-28 | Paid iff an event whose first action transfers exactly the nanotons comes before any event without actions; NotPaid iff every event passes; Raised for an unreadable amount or an action-less event reached first |
| CheckPayment.Nanotons | bot/utils/check_payment.py:19-21 | the amount is readable exactly when it parses as a decimal, and one with at most 9 decimals converts exactly to coefficient times `10^(9-exp)` nanotons |
| CheckPayment.OnlyFirstStop | bot/utils/check_payment.py:24-28 | the scan stops at the first event that does not pass, and no other |
| CheckPayment.NoStop | bot/utils/check_payment.py:24-28 | a scan that never stopped passed every event |
| CheckPayment.GeneratedAmountCarriesSuffix | bot/utils/check_payment.py:37-39 | an amount from `generate_amount` converts to base units whose last `len(suffix)` digits are the suffix |
| CheckPayment.TonAmountCarriesSuffix | bot/utils/check_payment.py:19-21 | for TON (9 decimals, 4-digit suffix) nanotons mod 10^4 is the suffix |
| CheckPayment.ScanInstructionsHit | bot/utils/check_payment.py:49-55 | a transaction matches exactly when an `spl-token` transfer to the token account of exactly `str(units)` comes before any instruction that raises |
| CheckPayment.InstructionStep | bot/utils/check_payment.py:50-55 | an instruction matches exactly when it is an `spl-token` one sent to the token account whose amount is the canonical decimal spelling of the units; only an `spl-token` instruction can raise |
| CheckPayment.ScanInstructions | bot/utils/check_payment.py:49-56 | scanning one transaction never hangs: it matches, raises or passes |
| CheckPayment.TokenUnits | bot/utils/check_payment.py:35-39 | the amount is readable exactly when it parses as a decimal, and one with at most `decimals` decimals converts exactly to coefficient times `10^(decimals-exp)` |
| CheckPayment.FirstHitShift | bot/utils/check_payment.py:49-55 | past an instruction that is skipped, the first matching instruction is the same one, one place later in the rest |
| CheckPayment.ScanInstructionsLoop | bot/utils/check_payment.py:49-56 | the `for` loop over instructions decides as the first instruction that is not skipped |
| CheckPayment.CheckPaymentSol | bot/utils/check_payment.py:31-61 | Raised iff the amount is unreadable; Paid iff some signature's transaction matches and every earlier one was scanned without a match or exception; Hangs iff a signature whose RPC call fails for ever is reached first, since `while True` keeps retrying it |
| CheckPayment.FirstStop | bot/utils/check_payment.py:42-60 | the signature loop decides at the first signature that is not passed over, and at no other: an exception before any match ends the check with False, even when a later signature would have matched |
| McpServers.RemoveKeyKeeps | bot/agents_tools/mcp_servers.py:34 | removing a key from the order keeps the others, keeps them distinct, and shortens it by one |
| McpServers.RemoveKey | bot/agents_tools/mcp_servers.py:34 | the order without the key holds exactly the other keys and is no longer |
| McpServers.MoveToEnd | bot/agents_tools/mcp_servers.py:34 | `move_to_end(k)` puts `k` last and nowhere else, and keeps exactly the keys there were |
| McpServers.Admit | bot/agents_tools/mcp_servers.py:53-57 | the new user is last in the order and mapped to the new server; a server is evicted iff the cache was full, and it is the least recent one, which leaves the map |
| McpServers.TouchKeeps | bot/agents_tools/mcp_servers.py:32-35 | a hit moves the user to the most recent end and keeps the size and the entries |
| McpServers.AdmitKeeps | bot/agents_tools/mcp_servers.py:53-57 | a miss adds the user as most recent; when the cache then exceeds 20, exactly the least recent entry is evicted |
| McpServers.Registry.GetDexpaprikaServer | bot/agents_tools/mcp_servers.py:14-28 | the first call creates and remembers the DexPaprika server; every later call returns that same server and creates nothing |
| McpServers.Registry.GetJupiterServer | bot/agents_tools/mcp_servers.py:31-59 | afterwards the user is the most recent entry with the returned server and the cache holds at most 20; a hit returns the cached server; a miss creates `jupiter-{user_id}` and evicts and cleans up only the least recent entry |
| Utf8.DecodeEncodeChar | database/repositories/user.py:82 | a Unicode scalar value encoded to UTF-8 decodes back to itself |
| Utf8.DecodeTwo | database/repositories/user.py:46 | a character from U+0080 to U+07FF is written in two bytes, which decode back to it whatever follows |
| Utf8.DecodeThree | database/repositories/user.py:46 | a character from U+0800 to U+FFFF is written in three bytes, which decode back to it whatever follows |
| Utf8.DecodeFour | database/repositories/user.py:46 | a character from U+10000 up is written in four bytes, which decode back to it whatever follows |
| Utf8.DecodeEncode | database/repositories/user.py:46 | `key.encode('utf-8').decode('utf-8') == key` for every string of scalar values |
| Utf8.EncodeAscii | database/repositories/user.py:44 | an ASCII string encodes to its own character codes |
| Base64.SextetAlphabet | database/repositories/user.py:83 | the base64 alphabet and its inverse agree |
| Base64.Encode | database/repositories/user.py:83 | the encoding is four characters per started group of three bytes |
| Base64.DecodeEncode | database/repositories/user.py:45 | `b64decode(b64encode(bs)) == bs` |
| Base64.DecodeLastOne | database/repositories/user.py:45 | a last group holding one byte (two characters and `==`) decodes to that byte |
| Base64.DecodeLastTwo | database/repositories/user.py:45 | a last group holding two bytes (three characters and `=`) decodes to those bytes |
| Base64.DecodeEncodeThree | database/repositories/user.py:45 | three bytes written as one group of four characters decode back to themselves |
| Base64.EncodeAlphabet | database/repositories/user.py:84 | the encoding consists of alphabet and padding characters only |
| Strings.ParseInt | bot/routers/user.py:199 | `int()` reads a string exactly when it is one or more ASCII digits, optionally after one sign; only a leading '-' gives a negative number |
| Strings.IntToStringRoundTrip | bot/keyboards/inline.py:30 | `int(str(i)) == i` |
| Strings.NatToStringCanonical | bot/utils/check_payment.py:54 | a string equals `str(n)` exactly when it is digits without a leading zero whose value is `n` |
| Tables.MessagesOfExactly | database/repositories/user.py:50-56 | the user's messages are exactly the rows with that `user_id` |
| Tables.MessagesOfAscending | database/repositories/user.py:53 | selecting one user's rows keeps ids ascending |
| Tables.DropMessagesOfExactly | database/repositories/user.py:36-39 | deleting a user's history keeps exactly the other users' rows |
| Tables.DropMessagesOfAscending | database/repositories/user.py:36-39 | deleting one user's history keeps the remaining ids ascending |
| Tables.DropWalletsExactly | database/repositories/user.py:76-78 | deleting a user's wallet keeps exactly the other users' wallets, still one per user |
| Tables.WalletOfExactly | database/repositories/user.py:41-43 | the lookup finds a wallet iff the user has one, and what it finds is that user's row |
| Tables.WalletOfAt | database/repositories/user.py:41-43 | with one wallet per user, each stored wallet is what its user's lookup finds |
| Tables.PaymentWithId | database/repositories/utils.py:54-56 | a payment with that id from the table, or None when no row has it |
| Tables.WalletOfUnique | database/repositories/user.py:80-81 | with one wallet per user, the lookup finds that user's only wallet |
| Tables.LatestWithSuffixIsLatest | database/repositories/utils.py:42-44 | the query finds a payment with the suffix and the latest `created_at`, or None when there is none |
| Tables.LatestWithSuffix | database/repositories/utils.py:42-44 | the payment found is one of the rows and carries the suffix |
| Tables.SolRow | database/repositories/utils.py:15 | the 'sol' row is found when there is one, and it is the first |
| UserRepo.WalletKeyRoundTrip | database/repositories/user.py:41-48 | a non-empty key stored by `add_wallet_key` reads back unchanged; the empty key reads back as no wallet |
| UserRepo.ReadStoredKey | database/repositories/user.py:41-48 | a user reads as having no wallet exactly when there is no row or its key is empty |
| UserRepo.DropMemoryVectors | database/repositories/user.py:66-68 | the rows kept are exactly the other users' rows |
| UserRepo.MemoryVectorOf | database/repositories/user.py:58-59 | a row of the user's from the memory-vector table, or None when the user has none |
| UserRepo.MessageWithId | database/repositories/user.py:102-103 | a message row with that id, or None when no row has it |
| UserRepo.UserRepository.GetByTelegramId | database/repositories/user.py:13-14 | the user with that id, or None |
| UserRepo.UserRepository.CreateIfNotExists | database/repositories/user.py:16-24 | an existing user is returned unchanged; otherwise a user with the given fields is added; nothing else changes |
| UserRepo.UserRepository.Update | database/repositories/user.py:26-34 | the balance becomes the passed user's balance minus the debit, the language is set when given, and nothing else changes |
| UserRepo.UserRepository.DeleteChatMessages | database/repositories/user.py:36-39 | exactly that user's messages go; the others stay, in order |
| UserRepo.UserRepository.GetWallet | database/repositories/user.py:41-48 | the stored key is decoded from base64 and UTF-8; no row or an empty one gives None |
| UserRepo.UserRepository.GetMessags | database/repositories/user.py:50-56 | exactly that user's messages, ids ascending |
| UserRepo.UserRepository.GetMemoryVector | database/repositories/user.py:58-59 | a memory-vector row of that user, or None when there is none |
| UserRepo.UserRepository.AddMemoryVector | database/repositories/user.py:61-64 | one more memory-vector row, nothing else changes |
| UserRepo.UserRepository.DeleteMemoryVector | database/repositories/user.py:66-68 | exactly that user's memory-vector rows go |
| UserRepo.UserRepository.AddContext | database/repositories/user.py:70-74 | the message is appended with a new id greater than every existing one, and the id is returned; that user's history gains it last and every other user's history is unchanged |
| Tables.AppendMessage | database/repositories/user.py:70-74 | a message whose id is above every stored id keeps the ids ascending, and it joins only its own user's history, at the end |
| UserRepo.UserRepository.DeleteWalletKey | database/repositories/user.py:76-78 | that user's wallet goes, and every other wallet stays |
| UserRepo.UserRepository.AddWalletKey | database/repositories/user.py:80-87 | the old wallet is replaced, so the user has exactly one, whose key reads back as the key given; other users' wallets are unchanged |
| UserRepo.UserRepository.AddPayment | database/repositories/user.py:89-95 | a payment row with a new id and the given fields is appended, and the id is returned |
| UserRepo.UserRepository.AddUserCredits | database/repositories/user.py:97-100 | the stored balance grows by the credits; nothing else changes |
| UserRepo.UserRepository.GetRowForMd | database/repositories/user.py:102-103 | the message with that id, whoever it belongs to, or None |
| UtilsRepo.SuffixFreeExactly | database/repositories/utils.py:41-52 | a suffix is free exactly when every payment that used it is at least 15 minutes old |
| UtilsRepo.DailyBalance | database/repositories/utils.py:62-69 | after the top-up every balance is at least 500 and never lower than before |
| UtilsRepo.DailyBalanceKeepsHigh | database/repositories/utils.py:62-69 | a balance of 500 or more is left alone |
| UtilsRepo.SolRowFirst | database/repositories/utils.py:15 | when only one row is 'sol', the query finds that row |
| UtilsRepo.DailyBalanceIdempotent | database/repositories/utils.py:62-69 | a second daily top-up changes nothing |
| UtilsRepo.SetStatus | database/repositories/utils.py:59 | the row with that id gets the status; every other row is unchanged |
| UtilsRepo.UtilsRepository.UpdateTokenPrice | database/repositories/utils.py:14-23 | the 'sol' row gets the price, or is added when missing; there stays exactly one; other rows are unchanged |
| UtilsRepo.UtilsRepository.GetToken | database/repositories/utils.py:25-27 | the only 'sol' row, or None when there is none |
| UtilsRepo.UtilsRepository.GetKnowledgeVectorStoreId | database/repositories/utils.py:29-30 | the first knowledge-vector row, or None when the table is empty |
| UtilsRepo.UtilsRepository.AddKnowledgeVectorStoreId | database/repositories/utils.py:32-35 | one more knowledge-vector row |
| UtilsRepo.UtilsRepository.DeleteKnowledgeVectorStoreId | database/repositories/utils.py:37-39 | every knowledge-vector row goes |
| UtilsRepo.UtilsRepository.CheckPaymentSuffix | database/repositories/utils.py:41-52 | True exactly when no payment with the suffix is younger than 15 minutes, in particular when none used it |
| UtilsRepo.UtilsRepository.GetPayment | database/repositories/utils.py:54-56 | the payment with that id, or None when there is none |
| UtilsRepo.UtilsRepository.UpdatePaymentStatus | database/repositories/utils.py:58-60 | the payment with that id gets the status; every other row and field is unchanged |
| UtilsRepo.UtilsRepository.UpdateTokensDaily | database/repositories/utils.py:62-69 | non-admins below 500 get 500; the admin below 500 gets 5000; an admin between 500 and 5000 and everyone else are untouched |
| CalculateTokens.Charge | bot/utils/calculate_tokens.py:11-17 | the charge of non-negative token counts is non-negative, and zero only when no tokens were used |
| CalculateTokens.ChargeMonotone | bot/utils/calculate_tokens.py:11-17 | more tokens of any kind never cost less |
| CalculateTokens.ChargeAdditive | bot/utils/calculate_tokens.py:11-17 | the charge of two requests together is the sum of their charges |
| CalculateTokens.CalculateTokens | bot/utils/calculate_tokens.py:7-18 | in private mode nothing changes; otherwise the user's balance becomes the passed user's balance minus `in/1000*2 + out/1000*8 + in_img/1000*10 + out_img/1000*40`, and nothing else changes |
| SolanaFuncs.LittleEndian | bot/utils/solana_funcs.py:21 | `int.from_bytes(b, "little")` is below `256^len(b)`, so the amount is below 2^64 |
| SolanaFuncs.LittleEndianRoundTrip | bot/utils/solana_funcs.py:21 | reading back bytes written little-endian gives the number |
| SolanaFuncs.ToLittleEndianRoundTrip | bot/utils/solana_funcs.py:21 | writing back the number read from bytes gives the bytes |
| SolanaFuncs.Slice | bot/utils/solana_funcs.py:20-21 | Python slicing clips to the data and never exceeds `hi - lo` bytes |
| SolanaFuncs.DecodeAccount | bot/utils/solana_funcs.py:19-21 | an account gives a 32-byte mint and an amount below 2^64, or raises when the mint is short |
| SolanaFuncs.DecodeTokenAccount | bot/utils/solana_funcs.py:19-21 | an account in the SPL Token layout gives its mint (bytes 0..32) and the amount stored in bytes 64..72 |
| SolanaFuncs.Decodable | bot/utils/solana_funcs.py:18-25 | the number of accounts decoded before the first that raises |
| SolanaFuncs.GetBalances | bot/utils/solana_funcs.py:6-27 | the SOL entry first, then one entry per token account in order; an exception ends the list early with the entries so far |
| InlineKeyboards.SelectLanguage | bot/keyboards/inline.py:6-10 | one row, button `i` labelled with text `i` and carrying `select_language_` plus language `i`; more texts than languages raise |
| InlineKeyboards.CloseText | bot/keyboards/inline.py:13-17 | one button with the text, carrying `close` |
| InlineKeyboards.KeyboardMd | bot/keyboards/inline.py:20-24 | one button with the text, whose data is `markdown_` followed by a field free of '_' that `int()` reads back as the row id |
| InlineKeyboards.CheckPayment | bot/keyboards/inline.py:27-32 | one button with the text, whose data is `check_payment_` followed by a field free of '_' that `int()` reads back as the payment id |
| UserRouter.KeyboardsRouteToTheirHandlers | bot/routers/user.py:43-221 | every button the inline keyboards build reaches its own handler: language, close, payment check, markdown |
| UserRouter.RouteOf | bot/routers/user.py:43-221 | the data goes to the language handler iff it starts with `select_language_`, to close iff it is `close`, to the payment check iff it starts with `check_payment_`, to markdown iff it starts with `markdown_` |
| UserRouter.LanguageOf | bot/routers/user.py:45 | the language read from the data never holds '_' |
| UserRouter.TrailingId | bot/routers/user.py:199 | data without '_' is read by `int()` as a whole |
| UserRouter.TrailingIdReadsLastField | bot/routers/user.py:199 | after a prefix ending in '_', a last field free of '_' that `int()` reads is the id returned |
| UserRouter.LanguageRoundTrip | bot/routers/user.py:45 | `split('_')[2]` of `select_language_{code}` is the code when it holds no '_' |
| UserRouter.LanguageCutAtUnderscore | bot/routers/user.py:45 | a code holding '_' is read only up to its first '_' |
| UserRouter.SelectLanguageButtonsParse | bot/routers/user.py:45 | every language button's data reads back as its language |
| UserRouter.MarkdownIdRoundTrip | bot/routers/user.py:223 | `int(split('_')[-1])` of the `keyboard_md` data is the row id |
| UserRouter.CheckPaymentIdRoundTrip | bot/routers/user.py:199 | `int(split('_')[-1])` of the `check_payment` data is the payment id |
| UserRouter.DocumentMimeLastExtension | bot/routers/user.py:175-187 | only the text after the last '.' decides: a known extension gives its MIME type, anything else is refused |
| UserRouter.DocumentMime | bot/routers/user.py:175-187 | an accepted document gets one of the known MIME types; a name without '.' is its own extension |
| UserRouter.RequestLocks.Set | bot/routers/user.py:113 | the lock is held for the next `ex` seconds |
| UserRouter.RequestLocks.Delete | bot/routers/user.py:192 | the lock is gone |
| UserRouter.Gate | bot/routers/user.py:104-111 | admitted iff no lock is held and, in private mode, the sender is the admin, otherwise the balance is above 0; the no-credits warning iff unlocked, not private and balance at most 0 |
| UserRouter.TextInput | bot/routers/user.py:102-116 | admitted iff unlocked and the sender is the admin in private mode or has a positive balance otherwise; the no-credits warning iff unlocked, not private and the balance is at most 0; an admitted request sets the lock for the next 40 seconds; any other outcome leaves the locks alone |
| UserRouter.InputDocument | bot/routers/user.py:164-193 | refused exactly when the gate does not admit, with the gate's verdict (the no-credits warning iff unlocked, not private and balance at most 0); after the gate an unknown extension is refused before any lock; otherwise the upload gets the extension's MIME type, and the lock is deleted whatever the upload did |
| UserRouter.CheckPaymentCallback | bot/routers/user.py:196-218 | raises iff the id does not parse; success iff the payment exists and its chain check says paid, and then the presser gets `amount_usd*1000` credits and the payment is 'confirmed'; the handler waits for ever iff the chain check hangs; the error text in every other case (a missing payment, a check that fails or raises); nothing changes unless it succeeds |
| UserRouter.Confirm | bot/routers/user.py:209-211 | the given user gains `amount_usd*1000` credits and nobody else changes; exactly the payments with that id become "confirmed" |
| UserRouter.SelectLanguageCallback | bot/routers/user.py:43-51 | the language from the data is stored for the user, or the handler raises and nothing changes |
| UserRouter.MdAnswer | bot/routers/user.py:221-237 | a bad id raises; a missing row gives the warning; otherwise the row's content is sent as `{id}.md` |
| AgentRequests.MessageInput | bot/utils/agent_requests.py:73-79 | the role is kept; the content goes unchanged iff it lacks the user's image marker |
| AgentRequests.HistoryInput | bot/utils/agent_requests.py:73-79 | the history is mapped row by row, in order |
| AgentRequests.PlainMessageUnchanged | bot/utils/agent_requests.py:74 | content without the marker reaches the model as it is |
| AgentRequests.MarkedRowInput | bot/utils/agent_requests.py:75-78 | a row holding the image marker reaches the model as its last '\|' field with the file named by its first field |
| AgentRequests.ImagePathHasMarker | bot/utils/agent_requests.py:127 | the saved photo's path `images/image_{id}_{uuid}.jpeg` contains `image_{id}` |
| AgentRequests.ImagePathHasNoBar | bot/utils/agent_requests.py:127 | the saved photo's path holds no '\|' when its uuid holds none |
| AgentRequests.StoredPhotoReadsBack | bot/utils/agent_requests.py:75-78 | a `path\|caption` row whose path has the marker becomes that caption and that file |
| AgentRequests.PhotoContextReadsBack | bot/utils/send_answer.py:130 | the row the photo handler stores reads back as the caption and the saved file, when neither holds '\|' |
| AgentRequests.CaptionCutAtBar | bot/utils/agent_requests.py:75 | a caption holding '\|' is read back as its part after the last '\|' |
| AgentRequests.BarFields | bot/utils/agent_requests.py:75-78 | a stored `path\|head\|tail` row keeps the marker, its first field is the path and its last field is `tail` |
| AgentRequests.CaptionOrDot | bot/utils/agent_requests.py:142 | the caption when there is a non-empty one, else "." |
| AgentRequests.TextRequestInput | bot/utils/agent_requests.py:73-80 | the mapped history in order, then the new text as the last, user message |
| AgentRequests.ImageRequestInput | bot/utils/agent_requests.py:134-146 | the mapped history, then the caption with the photo inline, whose base64 decodes back to the photo's bytes |
| AgentRequests.SumAppend | bot/utils/agent_requests.py:88-92 | the total over two runs of responses is the sum of their totals |
| AgentRequests.SumBounds | bot/utils/agent_requests.py:88-92 | no single response's usage exceeds the total |
| AgentRequests.TotalTokens | bot/utils/agent_requests.py:88-92 | the loop returns the sums of the input and of the output tokens over all raw responses |
| AgentRequests.InputTokens | bot/utils/agent_requests.py:88-92 | one input count per raw response, in order |
| AgentRequests.OutputTokens | bot/utils/agent_requests.py:88-92 | one output count per raw response, in order |
| AgentRequests.ReturnVectors | bot/utils/agent_requests.py:38-55 | an existing memory store and knowledge store are reused; a missing one is created with the new id and recorded |
| AgentRequests.LoadHistory | bot/utils/agent_requests.py:65-66 | the vector stores are made sure of, then the user's whole history is returned in order; nothing but the two store tables changes |
| AgentRequests.TextRequest | bot/utils/agent_requests.py:63-115 | the model gets the history and then the text; the answer carries the summed usage; with an image record the record is deleted and its file bytes and usage are returned; without one, no image and zero image tokens |
| AgentRequests.ImageRequest | bot/utils/agent_requests.py:118-165 | the model gets the history and then the photo; the answer carries the summed usage and the saved path, which contains the user's image marker |

## Left out

- `telegram_format` (chatgpt_md_converter) is an external library. It is a function parameter, and nothing is assumed about it.
- Telegram/aiogram I/O is left out: sending, editing and deleting messages, dialogs and windows, middlewares, and the bot's start-up. The close handler only deletes a message, so it has nothing to model beyond its route.
- SQLAlchemy sessions and commits are left out. Each repository method is one atomic change of the in-memory tables. Column defaults come from database/models.py, which is not part of this model. The model takes the payment status as None, `created_at` as the `now` argument, and ids from per-table counters.
- Tables.LatestWithSuffixIsLatest: when two payments with the same suffix share the latest `created_at`, SQL picks either one. The model states only that the row found is one of the latest.
- Redis is a map per key family, with expiry kept as a time. The JSON encoding of the image record is left out.
- The OpenAI/agents run, vector-store creation and file upload are left out. Their outputs are parameters: the run's final output and raw usages, the new store ids, and whether `add_file_to_memory` succeeded. Agent creation, the wallet key passed to it, and prompts are left out.
- File reads and writes are left out: the saved photo, `encode_image`, and `os.remove`. A history image is carried as its path; the image file's bytes are a parameter.
- The sleeps between Solana RPC calls are left out. The TonAPI and Solana RPC fetches are inputs, and so are the token's `decimals` and the associated token account.
- Float and Decimal numerics are modelled exactly:
  - `generate_amount` takes the exact quotient `usd/rate` as `num/den`. The 18-digit Decimal context is taken never to round, so amounts fit in 18 significant digits.
  - CalculateTokens.CalculateTokens: the charge is exact `real` arithmetic, not IEEE doubles.
  - `balance_lamports / 1e9` is kept as the integer number of lamports.
- SolanaFuncs.GetBalances: the entries are the numbers and mint bytes, not their display text (`' SOL'`, the shortened base58 mint). Base58 and keypair derivation are left out as library encodings.
- McpServers.Registry.GetJupiterServer: base58-encoding the key and starting the Node process are left out. The server records the key string it was given.
- `str.isdigit` accepts Unicode digits. The model accepts ASCII digits only.
- CheckPayment.Nanotons: only an amount spelt as ASCII digits with at most one '.' among them, and at least one digit, is read. Other spellings that `Decimal` accepts (`"1e5"`, `" 1 "`, `"1_0"`, `"-1"`, `"NaN"`) are not modelled and read as unreadable (Raised).
- CheckPayment.TokenUnits: the same restriction on the amount's spelling as CheckPayment.Nanotons.
- Strings.ParseInt: `int()` also accepts surrounding whitespace, '_' between digits and non-ASCII digits. The model reads only an optional sign followed by ASCII digits.
- `b64decode` is lenient by default: it drops characters outside the alphabet. Base64.Decode is strict and refuses them. Both agree on every string `b64encode` writes, which is all the model stores.
- The random suffix loop of the TON top-up (bot/dialogs/balance.py:91-94) is left out; the suffix is an input. The dialog handlers around the balance functions are left out too.
- UserRouter.TextInput stands for the shared prologue of `text_input`, `photo_input` and `input_voice`. The voice handler's transcription failure path, which deletes the lock, is left out.
- UserRouter.CheckPaymentCallback takes the TON events and the Solana answers as one `ChainView` argument. It takes the presser's `User` as given.
