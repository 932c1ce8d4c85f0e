# A verified model of five pieces of an L2J login and game server

This project models in Dafny five parts of the server and proves properties about them.

- **`AuthRequest` packet (login server).** A world server sends this packet to log in to the login server. The model covers:
  - decoding the packet's fields from bytes, with a proved decode/encode round trip;
  - the key check;
  - binding the connection to an existing registered world-server record, or registering a new one under a free id;
  - the close reasons the connection gets;
  - the `AuthResponse` it is answered with.

  The outcome is modelled in full in six cases. In one of them, a login onto a record that is already authenticated is closed with `REASON_ALREADY_LOGGED` and is still answered with an `AuthResponse` for that id, because `runImpl` checks `isAuthed()` after the close.
- **`RequestPurchaseLimitShopItemBuy` packet (game server).** A limit-shop (L-Coin) purchase:
  - reading the tab, product id and amount;
  - refusing the purchase, with a fail packet;
  - or taking the shop request, destroying every ingredient times the amount, crediting the production times the amount, sending the success packet and releasing the request.

  Counts are Java `long`s: `count * amount` wraps at 64 bits.
- **`Hero` (the hero system).** The model covers:
  - the current heroes and the all-time heroes;
  - the period rotation `computeNewHeroes`: a returning hero's count goes up by one, with Java `int` wrap-around, and a newcomer gets a first record;
  - `updateHeroes`: newcomers are inserted, receive their clan/ally columns and join the all-time table; returning heroes are updated;
  - the diary page window and its paging buttons in `showHeroDiary`;
  - the diary appends of `setRBkilled` and `setCastleTaken`;
  - `resetData`;
  - the message save of `shutdown`/`saveHeroMessage` (see Findings).
- **`ZoneCylinderArea` (a zone form).**
  - `isInside` is proved equivalent to "within the radius of the axis, boundary included, and within the height band, both ends included".
  - `intersectsRectangle` is proved equivalent to "some point of the closed rectangle is strictly nearer to the centre than the radius". This needs coordinates away from 32-bit overflow and a rectangle whose corners are in order.
  - The squared radius is Java `int` arithmetic. It wraps negative from radius 46341 upward, and then not even the centre is inside (`ZoneForms.WideRadiusWraps`).
- **`SiegeScheduleData`.** The siege slots read from the schedule document:
  - one slot per `schedule` element under a `list` element, in document order;
  - the day defaults to SUNDAY;
  - one default slot when the document has none.

State that the source changes in place is modelled as Dafny classes whose fields the methods update:
- the connection, the world-server record and the registry;
- the player and the packet object;
- the hero tables;
- the schedule list.

The database, log output and network sends are recorded as traces of writes and events: `writes`, `dbWrites`, `events` and `trace`. The following are method parameters:
- the login server's settings;
- the registry's choice of a free id;
- the clan/ally query result and the clan table;
- the NPC and castle names;
- the clock;
- the product the shop returns.

The iteration order of a Java `HashMap` is a ghost `order` that the contracts quantify over.

## Model

| member | source | states |
|---|---|---|
| Wire.ReadByteEncode | AuthServer/src/main/org.l2j.authserver/org/l2j/authserver/network/gameserver/packet/game2auth/AuthRequest.java:48 | reading a signed byte gives back the byte that was written and leaves the rest of the buffer |
| Wire.ReadBooleanEncode | AuthServer/src/main/org.l2j.authserver/org/l2j/authserver/network/gameserver/packet/game2auth/AuthRequest.java:50 | reading a boolean gives back the boolean that was written |
| Wire.ReadShortEncode | AuthServer/src/main/org.l2j.authserver/org/l2j/authserver/network/gameserver/packet/game2auth/AuthRequest.java:66 | reading a 16-bit short gives back every value in the signed short range |
| Wire.ReadIntEncode | AuthServer/src/main/org.l2j.authserver/org/l2j/authserver/network/gameserver/packet/game2auth/AuthRequest.java:51-52 | reading a 32-bit int gives back every Java `int` |
| Wire.ReadStringEncode | AuthServer/src/main/org.l2j.authserver/org/l2j/authserver/network/gameserver/packet/game2auth/AuthRequest.java:59-60 | a NUL-terminated UTF-16 string without NUL reads back exactly, with the rest of the buffer |
| Wire.ReadUnitsEncode | AuthServer/src/main/org.l2j.authserver/org/l2j/authserver/network/gameserver/packet/game2auth/AuthRequest.java:49 | n UTF-16 code units read back exactly |
| Wire.ReadSizedStringEncode | AuthServer/src/main/org.l2j.authserver/org/l2j/authserver/network/gameserver/packet/game2auth/AuthRequest.java:49 | a length-prefixed string shorter than 2^15 units reads back exactly |
| Wire.ReadByte | AuthServer/src/main/org.l2j.authserver/org/l2j/authserver/network/gameserver/packet/game2auth/AuthRequest.java:48 | succeeds iff one byte is left; the value is in the signed byte range and one byte is taken |
| Wire.ReadInt | AuthServer/src/main/org.l2j.authserver/org/l2j/authserver/network/gameserver/packet/game2auth/AuthRequest.java:51-52 | succeeds iff four bytes are left; the value is a Java `int` and four bytes are taken |
| AuthRequestPacket.ReadStrings | AuthServer/src/main/org.l2j.authserver/org/l2j/authserver/network/gameserver/packet/game2auth/AuthRequest.java:58-61 | on success exactly n strings, none containing NUL, and the buffer does not grow |
| AuthRequestPacket.ReadShorts | AuthServer/src/main/org.l2j.authserver/org/l2j/authserver/network/gameserver/packet/game2auth/AuthRequest.java:65-67 | on success exactly n shorts in range, and exactly 2n bytes taken |
| AuthRequestPacket.ReadHostGroup | AuthServer/src/main/org.l2j.authserver/org/l2j/authserver/network/gameserver/packet/game2auth/AuthRequest.java:57-61 | on success the host list has exactly twice as many strings as the signed count byte says, none containing NUL; a negative count byte fails as a negative array size |
| AuthRequestPacket.ReadPortGroup | AuthServer/src/main/org.l2j.authserver/org/l2j/authserver/network/gameserver/packet/game2auth/AuthRequest.java:63-67 | on success the port list has exactly as many shorts as the signed count byte says, and two bytes per port are taken; a negative count byte fails as a negative array size |
| AuthRequestPacket.Decode | AuthServer/src/main/org.l2j.authserver/org/l2j/authserver/network/gameserver/packet/game2auth/AuthRequest.java:47-68 | a successful decode yields a well-formed request and consumes at least one byte |
| AuthRequestPacket.ReadStringsEncode | AuthServer/src/main/org.l2j.authserver/org/l2j/authserver/network/gameserver/packet/game2auth/AuthRequest.java:58-61 | the host strings read back exactly |
| AuthRequestPacket.ReadShortsEncode | AuthServer/src/main/org.l2j.authserver/org/l2j/authserver/network/gameserver/packet/game2auth/AuthRequest.java:65-67 | the ports read back exactly |
| AuthRequestPacket.DecodeEncode | AuthServer/src/main/org.l2j.authserver/org/l2j/authserver/network/gameserver/packet/game2auth/AuthRequest.java:47-68 | every well-formed request encodes to bytes that decode back to it, leaving any trailing bytes |
| AuthRequestPacket.AuthRequest.ReadImpl | AuthServer/src/main/org.l2j.authserver/org/l2j/authserver/network/gameserver/packet/game2auth/AuthRequest.java:47-68 | `readImpl` succeeds iff the packet decodes, and then the fields, including the host and port arrays, are the decoded request |
| AuthRequestPacket.AuthRequest.ReadFixedFields | AuthServer/src/main/org.l2j.authserver/org/l2j/authserver/network/gameserver/packet/game2auth/AuthRequest.java:48-55 | the eight fixed fields are read in order, and the read succeeds iff the header decodes |
| AuthRequestPacket.AuthRequest.ReadHosts | AuthServer/src/main/org.l2j.authserver/org/l2j/authserver/network/gameserver/packet/game2auth/AuthRequest.java:57-61 | the host loop fills a fresh array of twice the count, in pairs; it fails iff the host group does not decode |
| AuthRequestPacket.AuthRequest.ReadPorts | AuthServer/src/main/org.l2j.authserver/org/l2j/authserver/network/gameserver/packet/game2auth/AuthRequest.java:63-67 | the port loop fills a fresh array of the read size; it fails iff the port group does not decode |
| AuthRequestPacket.AuthRequest.UpdateGameServerInfo | AuthServer/src/main/org.l2j.authserver/org/l2j/authserver/network/gameserver/packet/game2auth/AuthRequest.java:114-128 | the connection is authenticated and bound to the record; the record takes every field of the packet and status AUTO; one server-type write |
| AuthRequestPacket.AuthRequest.AuthenticGameServer | AuthServer/src/main/org.l2j.authserver/org/l2j/authserver/network/gameserver/packet/game2auth/AuthRequest.java:90-96 | an authenticated record closes the connection with ALREADY_LOGGED and changes nothing; otherwise the connection takes the record over |
| AuthRequestPacket.AuthRequest.ProcessNewGameServer | AuthServer/src/main/org.l2j.authserver/org/l2j/authserver/network/gameserver/packet/game2auth/AuthRequest.java:98-112 | null with NOT_AUTHED unless both new servers and alternative ids are accepted; null with NO_FREE_ID when no id is free; otherwise a fresh record under the free id, bound, registered and written twice |
| AuthRequestPacket.AuthRequest.RunImpl | AuthServer/src/main/org.l2j.authserver/org/l2j/authserver/network/gameserver/packet/game2auth/AuthRequest.java:71-88 | the six outcomes (key refused, already logged, take over, no new servers, no free id, new record), each with its close reason or `AuthResponse` id and its registry and database effects |
| GameServers.GameServerManager.GetRegisteredGameServerById | AuthServer/src/main/org.l2j.authserver/org/l2j/authserver/network/gameserver/packet/game2auth/AuthRequest.java:77 | non-null iff a record is registered under the id, and then it is that record with that id |
| GameServers.GameServerManager.RegisterWithFirstAvailableId | AuthServer/src/main/org.l2j.authserver/org/l2j/authserver/network/gameserver/packet/game2auth/AuthRequest.java:101 | succeeds iff the registry's pick is a free id; then the record takes that id and is added, otherwise nothing changes |
| GameServers.GameServerManager.RegisterServerOnDB | AuthServer/src/main/org.l2j.authserver/org/l2j/authserver/network/gameserver/packet/game2auth/AuthRequest.java:103 | one registration write for the record's id |
| GameServers.GameServerManager.UpdateServerType | AuthServer/src/main/org.l2j.authserver/org/l2j/authserver/network/gameserver/packet/game2auth/AuthRequest.java:123 | one server-type write for the id |
| GameServers.GameServerClient.Close | AuthServer/src/main/org.l2j.authserver/org/l2j/authserver/network/gameserver/packet/game2auth/AuthRequest.java:73 | the connection logs exactly one close with the reason |
| GameServers.GameServerClient.SendAuthResponse | AuthServer/src/main/org.l2j.authserver/org/l2j/authserver/network/gameserver/packet/game2auth/AuthRequest.java:86 | the connection logs exactly one `AuthResponse` with the id |
| GameServers.GameServerInfo.constructor | AuthServer/src/main/org.l2j.authserver/org/l2j/authserver/network/gameserver/packet/game2auth/AuthRequest.java:100 | a new record has the asked id and the connection, is not authenticated and is down |
| LimitShop.Total | Gameserver/src/main/org.l2j.gameserver/org/l2j/gameserver/network/clientpackets/RequestPurchaseLimitShopItemBuy.java:69 | `count * amount` is always a Java `long`, and is the exact product when that fits |
| LimitShop.Destroys | Gameserver/src/main/org.l2j.gameserver/org/l2j/gameserver/network/clientpackets/RequestPurchaseLimitShopItemBuy.java:75-79 | one destroy per ingredient, in list order, each of count times amount |
| LimitShop.ConsumeAllCount | Gameserver/src/main/org.l2j.gameserver/org/l2j/gameserver/network/clientpackets/RequestPurchaseLimitShopItemBuy.java:75-79 | after consuming, each item's count is its old count less the total the ingredient list demands of it |
| LimitShop.DemandUnlisted | Gameserver/src/main/org.l2j.gameserver/org/l2j/gameserver/network/clientpackets/RequestPurchaseLimitShopItemBuy.java:75-79 | an item not in the ingredient list is demanded zero times |
| LimitShop.DemandDistinct | Gameserver/src/main/org.l2j.gameserver/org/l2j/gameserver/network/clientpackets/RequestPurchaseLimitShopItemBuy.java:75-79 | with distinct ingredient ids, an ingredient's item is demanded exactly its count times amount |
| LimitShop.ConsumeDistinct | Gameserver/src/main/org.l2j.gameserver/org/l2j/gameserver/network/clientpackets/RequestPurchaseLimitShopItemBuy.java:75-79 | with distinct ids, each ingredient loses exactly its total and every other item is untouched |
| LimitShop.ConsumeKeepsCountsNonNegative | Gameserver/src/main/org.l2j.gameserver/org/l2j/gameserver/network/clientpackets/RequestPurchaseLimitShopItemBuy.java:67-79 | when `hasIngredients` held, the ingredient ids are distinct and no count was negative before, consuming leaves no count negative |
| LimitShop.PurchaseCount | Gameserver/src/main/org.l2j.gameserver/org/l2j/gameserver/network/clientpackets/RequestPurchaseLimitShopItemBuy.java:58-62 | after a purchase each item's count is old count, less demand, plus the production credit when it is the production item |
| LimitShop.NoPacketsInDestroys | Gameserver/src/main/org.l2j.gameserver/org/l2j/gameserver/network/clientpackets/RequestPurchaseLimitShopItemBuy.java:75-79 | consuming ingredients sends no packet |
| LimitShop.SuccessSendsOnePacket | Gameserver/src/main/org.l2j.gameserver/org/l2j/gameserver/network/clientpackets/RequestPurchaseLimitShopItemBuy.java:58-64 | an accepted purchase sends exactly one packet, the success packet, between taking and releasing the request |
| LimitShop.RepeatedIngredientOverdraws | Gameserver/src/main/org.l2j.gameserver/org/l2j/gameserver/network/clientpackets/RequestPurchaseLimitShopItemBuy.java:67-79 | an item listed twice passes `hasIngredients` on the stock it has once, and consuming then leaves its count negative |
| LimitShop.NegativeAmountCredits | Gameserver/src/main/org.l2j.gameserver/org/l2j/gameserver/network/clientpackets/RequestPurchaseLimitShopItemBuy.java:67-79 | a negative amount passes `hasIngredients` with an empty inventory, and the destroy of the negative total raises the count |
| LimitShop.RequestPurchaseLimitShopItemBuy.ReadImpl | Gameserver/src/main/org.l2j.gameserver/org/l2j/gameserver/network/clientpackets/RequestPurchaseLimitShopItemBuy.java:39-43 | succeeds iff nine bytes are present; then tab, product id and amount are the byte and two ints read |
| LimitShop.RequestPurchaseLimitShopItemBuy.HasIngredients | Gameserver/src/main/org.l2j.gameserver/org/l2j/gameserver/network/clientpackets/RequestPurchaseLimitShopItemBuy.java:67-73 | true iff the inventory holds at least count times amount of every ingredient |
| LimitShop.RequestPurchaseLimitShopItemBuy.ConsumeIngredients | Gameserver/src/main/org.l2j.gameserver/org/l2j/gameserver/network/clientpackets/RequestPurchaseLimitShopItemBuy.java:75-79 | the inventory is the old one with every ingredient withdrawn, and the trace gains one destroy per ingredient |
| LimitShop.RequestPurchaseLimitShopItemBuy.RunImpl | Gameserver/src/main/org.l2j.gameserver/org/l2j/gameserver/network/clientpackets/RequestPurchaseLimitShopItemBuy.java:46-65 | a refused purchase only sends the fail packet; an accepted one takes and releases the request, consumes, credits the production and sends success |
| LimitShop.Player.DestroyItemByItemId | Gameserver/src/main/org.l2j.gameserver/org/l2j/gameserver/network/clientpackets/RequestPurchaseLimitShopItemBuy.java:77 | withdraws the count of that item and logs the destroy |
| LimitShop.Player.AddItem | Gameserver/src/main/org.l2j.gameserver/org/l2j/gameserver/network/clientpackets/RequestPurchaseLimitShopItemBuy.java:62 | deposits the count of that item and logs the credit |
| LimitShop.Player.AddRequest | Gameserver/src/main/org.l2j.gameserver/org/l2j/gameserver/network/clientpackets/RequestPurchaseLimitShopItemBuy.java:60 | the player holds a shop request |
| LimitShop.Player.RemoveRequest | Gameserver/src/main/org.l2j.gameserver/org/l2j/gameserver/network/clientpackets/RequestPurchaseLimitShopItemBuy.java:64 | the player no longer holds a shop request |
| LimitShop.Player.SendPacket | Gameserver/src/main/org.l2j.gameserver/org/l2j/gameserver/network/clientpackets/RequestPurchaseLimitShopItemBuy.java:54 | logs exactly the packet sent |
| Heroes.Rotation | Gameserver/src/main/org.l2j.gameserver/org/l2j/gameserver/model/entity/Hero.java:344-363 | the rotation never adds or removes an all-time hero |
| Heroes.Incremented | Gameserver/src/main/org.l2j.gameserver/org/l2j/gameserver/model/entity/Hero.java:349-350 | a count raised n times is the exact sum while it fits a Java `int` |
| Heroes.RotationKeys | Gameserver/src/main/org.l2j.gameserver/org/l2j/gameserver/model/entity/Hero.java:344-363 | the current heroes after the rotation are exactly the characters of the list; the all-time keys are unchanged |
| Heroes.RotationAgrees | Gameserver/src/main/org.l2j.gameserver/org/l2j/gameserver/model/entity/Hero.java:347-353 | a returning hero's current record is its all-time record |
| Heroes.RotationReturning | Gameserver/src/main/org.l2j.gameserver/org/l2j/gameserver/model/entity/Hero.java:347-353 | a returning hero's count rises once per occurrence in the list; it is playing and has not claimed |
| Heroes.RotationFirstTime | Gameserver/src/main/org.l2j.gameserver/org/l2j/gameserver/model/entity/Hero.java:354-362 | a newcomer (last occurrence) gets its name and class, count 1, playing, not claimed |
| Heroes.ClanFieldsFor | Gameserver/src/main/org.l2j.gameserver/org/l2j/gameserver/model/entity/Hero.java:394-415 | with a clan, the clan's name and crest; with an ally as well, the clan's ally name and ally crest; empty names and zero crests otherwise |
| Heroes.WritesFor | Gameserver/src/main/org.l2j.gameserver/org/l2j/gameserver/model/entity/Hero.java:377-431 | one insert or update per visited hero, in visiting order |
| Heroes.PromoteStep | Gameserver/src/main/org.l2j.gameserver/org/l2j/gameserver/model/entity/Hero.java:378-430 | visiting one hero keeps the set of current heroes |
| Heroes.PromoteAll | Gameserver/src/main/org.l2j.gameserver/org/l2j/gameserver/model/entity/Hero.java:377-431 | visiting a list of heroes keeps the set of current heroes |
| Heroes.PromoteAllPromotes | Gameserver/src/main/org.l2j.gameserver/org/l2j/gameserver/model/entity/Hero.java:377-431 | visiting each hero once gives newcomers their clan columns in both tables, leaves others alone, and issues one write per hero in order |
| Heroes.PromoteStepOn | Gameserver/src/main/org.l2j.gameserver/org/l2j/gameserver/model/entity/Hero.java:378-430 | one more visit extends the promotion by that hero |
| Heroes.PromotionRecordsAll | Gameserver/src/main/org.l2j.gameserver/org/l2j/gameserver/model/entity/Hero.java:419-421 | after the promotion every current hero is an all-time hero with the same record, and all earlier all-time records are kept |
| Heroes.RotationRecordsAll | Gameserver/src/main/org.l2j.gameserver/org/l2j/gameserver/model/entity/Hero.java:303-366 | after `computeNewHeroes` the current heroes are the list's characters, each recorded among all heroes; heroes not in the list keep their all-time record |
| Heroes.Reversed | Gameserver/src/main/org.l2j.gameserver/org/l2j/gameserver/model/entity/Hero.java:252-253 | the diary is shown newest first |
| Heroes.PageContents | Gameserver/src/main/org.l2j.gameserver/org/l2j/gameserver/model/entity/Hero.java:258-276 | a page shows at most ten entries from the page's first index, newest first, with alternating row colours |
| Heroes.PageButtons | Gameserver/src/main/org.l2j.gameserver/org/l2j/gameserver/model/entity/Hero.java:278-288 | for a page that starts inside the diary: the button to the older page (page + 1) appears iff entries remain past this page, the button to the newer page iff the page is past the first; the page holds ten rows or the rest of the diary |
| Heroes.PageButtonsPastEnd | Gameserver/src/main/org.l2j.gameserver/org/l2j/gameserver/model/entity/Hero.java:258-288 | a page past the end shows no entry, yet the older-page button appears whenever the diary has two entries or more, and the newer-page button iff the page is past the first |
| Heroes.FirstIndexInRange | Gameserver/src/main/org.l2j.gameserver/org/l2j/gameserver/model/entity/Hero.java:259 | the first index is (page - 1) * 10 without overflow, negative iff the page is below 1 |
| Heroes.DiaryRows | Gameserver/src/main/org.l2j.gameserver/org/l2j/gameserver/model/entity/Hero.java:259-276 | the paging loop reports a negative start as out of bounds, else yields the page window and its last index |
| Heroes.MessageWrites | Gameserver/src/main/org.l2j.gameserver/org/l2j/gameserver/model/entity/Hero.java:528-532 | one message write per character, each carrying that character's message |
| Heroes.ShutdownLosesMessage | Gameserver/src/main/org.l2j.gameserver/org/l2j/gameserver/model/entity/Hero.java:500-532 | a hero with a message: the source's shutdown writes nothing, the corrected one writes the message |
| Heroes.Hero.constructor | Gameserver/src/main/org.l2j.gameserver/org/l2j/gameserver/model/entity/Hero.java:75-78 | all four tables start empty |
| Heroes.Hero.GetHeroByClass | Gameserver/src/main/org.l2j.gameserver/org/l2j/gameserver/model/entity/Hero.java:224-231 | a current hero of that class when there is one, 0 when there is none |
| Heroes.Hero.ResetData | Gameserver/src/main/org.l2j.gameserver/org/l2j/gameserver/model/entity/Hero.java:233-236 | diaries and messages are emptied and nothing else changes |
| Heroes.Hero.ShowHeroDiary | Gameserver/src/main/org.l2j.gameserver/org/l2j/gameserver/model/entity/Hero.java:238-301 | the reply is the diary page of the hero's diary and message for that page |
| Heroes.Hero.UpdateHeroes | Gameserver/src/main/org.l2j.gameserver/org/l2j/gameserver/model/entity/Hero.java:368-436 | with the default flag, one reset write and no table change; otherwise every current hero visited once and promoted, with their writes |
| Heroes.Hero.UpdateEach | Gameserver/src/main/org.l2j.gameserver/org/l2j/gameserver/model/entity/Hero.java:377-431 | the loop visits each current hero once and its result is the promotion over that order |
| Heroes.Hero.Rotate | Gameserver/src/main/org.l2j.gameserver/org/l2j/gameserver/model/entity/Hero.java:344-363 | the rotation loop yields the rotation of the list |
| Heroes.Hero.ComputeNewHeroes | Gameserver/src/main/org.l2j.gameserver/org/l2j/gameserver/model/entity/Hero.java:303-366 | reset and item-delete writes; an empty list leaves no current hero; otherwise the rotated heroes, promoted, each recorded among all heroes |
| Heroes.Hero.SetRBkilled | Gameserver/src/main/org.l2j.gameserver/org/l2j/gameserver/model/entity/Hero.java:438-453 | one diary insert; the "was defeated" entry is appended iff the hero has a diary and the NPC exists |
| Heroes.Hero.SetCastleTaken | Gameserver/src/main/org.l2j.gameserver/org/l2j/gameserver/model/entity/Hero.java:455-470 | one diary insert; the castle entry is appended iff the hero has a diary and the castle exists |
| Heroes.Hero.SetDiaryData | Gameserver/src/main/org.l2j.gameserver/org/l2j/gameserver/model/entity/Hero.java:472-483 | exactly one diary insert with the clock, action and parameter |
| Heroes.Hero.SetHeroMessage | Gameserver/src/main/org.l2j.gameserver/org/l2j/gameserver/model/entity/Hero.java:491-493 | the message of that character is set |
| Heroes.Hero.SaveHeroMessageAsWritten | Gameserver/src/main/org.l2j.gameserver/org/l2j/gameserver/model/entity/Hero.java:500-513 | as written: no write when a message exists, a write of no message otherwise |
| Heroes.Hero.ShutdownAsWritten | Gameserver/src/main/org.l2j.gameserver/org/l2j/gameserver/model/entity/Hero.java:528-532 | as written: shutdown issues no write at all |
| Heroes.Hero.SaveHeroMessage | Gameserver/src/main/org.l2j.gameserver/org/l2j/gameserver/model/entity/Hero.java:500-513 | corrected: no write without a message, otherwise one write of that message |
| Heroes.Hero.Shutdown | Gameserver/src/main/org.l2j.gameserver/org/l2j/gameserver/model/entity/Hero.java:528-532 | corrected: each character with a message is written once, with its message |
| ZoneForms.Cylinder | Gameserver/src/main/org.l2j.gameserver/org/l2j/gameserver/world/zone/form/ZoneCylinderArea.java:43-50 | the fields are the arguments; the squared radius is the exact square when it fits an `int` |
| ZoneForms.ConstructorFields | Gameserver/src/main/org.l2j.gameserver/org/l2j/gameserver/world/zone/form/ZoneCylinderArea.java:43-50 | `getLowZ`/`getHighZ` return the band given, and the squared radius is exact up to radius 46340 |
| ZoneForms.WideRadiusWraps | Gameserver/src/main/org.l2j.gameserver/org/l2j/gameserver/world/zone/form/ZoneCylinderArea.java:49 | radius 46341 wraps the squared radius negative, and then even the centre is not inside |
| ZoneForms.IsInsideExactly | Gameserver/src/main/org.l2j.gameserver/org/l2j/gameserver/world/zone/form/ZoneCylinderArea.java:53-55 | inside iff within the radius of the axis, boundary included, and within the band, both ends included |
| ZoneForms.BandOfTheCentre | Gameserver/src/main/org.l2j.gameserver/org/l2j/gameserver/world/zone/form/ZoneCylinderArea.java:53-55 | the centre is inside exactly at the heights of the band, and no point outside the band is inside |
| ZoneForms.IntersectsRectangleTests | Gameserver/src/main/org.l2j.gameserver/org/l2j/gameserver/world/zone/form/ZoneCylinderArea.java:58-95 | the tests in `int` arithmetic agree with the same tests in exact arithmetic |
| ZoneForms.IntersectsRectangleExactly | Gameserver/src/main/org.l2j.gameserver/org/l2j/gameserver/world/zone/form/ZoneCylinderArea.java:58-95 | intersects iff some point of the closed rectangle is strictly nearer to the centre than the radius |
| ZoneForms.TestsMeetDisc | Gameserver/src/main/org.l2j.gameserver/org/l2j/gameserver/world/zone/form/ZoneCylinderArea.java:58-95 | centre-inside, corner and side tests hold iff the disc meets the rectangle |
| ZoneForms.NearestPoint | Gameserver/src/main/org.l2j.gameserver/org/l2j/gameserver/world/zone/form/ZoneCylinderArea.java:58-95 | the clamped centre is the point of the rectangle nearest to the centre |
| SiegeSchedule.Named | Gameserver/src/main/org.l2j.gameserver/org/l2j/gameserver/data/xml/impl/SiegeScheduleData.java:46 | `forEach` visits only children with the name, each a child |
| SiegeSchedule.Entries | Gameserver/src/main/org.l2j.gameserver/org/l2j/gameserver/data/xml/impl/SiegeScheduleData.java:47-49 | one slot per schedule element, in order, from its attributes |
| SiegeSchedule.NamedAppend | Gameserver/src/main/org.l2j.gameserver/org/l2j/gameserver/data/xml/impl/SiegeScheduleData.java:46 | `forEach` keeps document order |
| SiegeSchedule.NamedMembers | Gameserver/src/main/org.l2j.gameserver/org/l2j/gameserver/data/xml/impl/SiegeScheduleData.java:46 | an element is visited iff it is a child with the name |
| SiegeSchedule.ScheduleNodesAppend | Gameserver/src/main/org.l2j.gameserver/org/l2j/gameserver/data/xml/impl/SiegeScheduleData.java:46 | the schedules of two runs of top-level elements are those of the first, then those of the second |
| SiegeSchedule.ScheduleNodesMembers | Gameserver/src/main/org.l2j.gameserver/org/l2j/gameserver/data/xml/impl/SiegeScheduleData.java:46 | an element yields a slot iff it is a `schedule` directly under a `list` element |
| SiegeSchedule.LoadedNotEmpty | Gameserver/src/main/org.l2j.gameserver/org/l2j/gameserver/data/xml/impl/SiegeScheduleData.java:34-42 | the list is never empty after `load` |
| SiegeSchedule.LoadedEntries | Gameserver/src/main/org.l2j.gameserver/org/l2j/gameserver/data/xml/impl/SiegeScheduleData.java:34-51 | without schedules the list is the default slot alone; otherwise one slot per schedule, with its hour, concurrency and day or SUNDAY |
| SiegeSchedule.SiegeScheduleData.constructor | Gameserver/src/main/org.l2j.gameserver/org/l2j/gameserver/data/xml/impl/SiegeScheduleData.java:24-26 | construction loads the document |
| SiegeSchedule.SiegeScheduleData.Load | Gameserver/src/main/org.l2j.gameserver/org/l2j/gameserver/data/xml/impl/SiegeScheduleData.java:34-42 | the list becomes the loaded list, whatever it held before |
| SiegeSchedule.SiegeScheduleData.ParseDocument | Gameserver/src/main/org.l2j.gameserver/org/l2j/gameserver/data/xml/impl/SiegeScheduleData.java:45-51 | appends exactly the document's slots, in order, to the list |
| SiegeSchedule.SiegeScheduleData.GetScheduleDates | Gameserver/src/main/org.l2j.gameserver/org/l2j/gameserver/data/xml/impl/SiegeScheduleData.java:53-55 | the list itself |

## Left out

- The packet base class's readers (`readByte`, `readInt`, `readString`, `readSizedString`, …) are not part of this model. They are modelled as little-endian, with UTF-16 strings either NUL-terminated or prefixed by a short length, and a read past the end is an underflow error.
- `AuthServerSettings.acceptKey` and `acceptNewGameServerEnabled` are not part of this model. Their answers are the `keyAccepted` and `acceptNewGameServer` parameters of `RunImpl`.
- `GameServerManager.registerWithFirstAvaliableId`'s search for a free id is not part of this model. Its pick is the `freeId` parameter, and registration fails when the pick is missing or taken.
- LimitShop.Player.DestroyItemByItemId, LimitShop.Player.AddItem: the inventory services are not part of this model. A destroy lowers the count by exactly its argument and an add raises it by exactly its argument; neither ever fails, and a count may go negative. Under this reading an ingredient listed twice overdraws (`LimitShop.RepeatedIngredientOverdraws`), and a negative client `amount` makes every destroy a credit (`LimitShop.NegativeAmountCredits`). The game's own inventory may refuse those destroys.
- Database failures (`SQLException`) are not modelled. Every write is logged as issued, and the clan/ally query result is the `rows` parameter.
- `computeNewHeroes`'s effects on online players are left out, because the world and player inventories are not part of this model: un-equipping and destroying hero items, inventory updates and broadcasts.
- `showHeroDiary` is modelled as the data of the page: the rows, the buttons and the message. HTML loading and text substitution, the hero-name lookup and sending the packet are left out.
- The NPC table, the castle manager and the clock are parameters: `npcName`, `castleName`, `now` and `date`.
- `UpdateHeroes` and `ComputeNewHeroes` require that the clan table knows every clan a clan/ally row names. Where it does not, the source fails on the missing clan, which is not modelled.
- `LimitShop.RequestPurchaseLimitShopItemBuy.RunImpl` takes the product that `getProductInfo` returns. The null product of an unknown id, which makes the source throw, is not modelled. The player's level and request flags are fields of the player.
- `isInside` and `intersectsRectangle` square with `Math.pow` on doubles. The model uses exact integer squares of the wrapped `int` differences. The comparisons still agree with the source on every input. A square or a sum of squares up to 2^53 is an integer that a double holds exactly, so there the double result is the exact one. Above 2^53 the double result is rounded, but it is still at least 2^53, which exceeds every `int` `radS`, so both comparisons are false in the source and in the model.
- `distanceFrom`, `visualize` and `getRandomPoint` are not modelled, because they are floating point and random.
- `ZoneForms.IsInsideExactly`: stated only when coordinates stay below 2^30 in magnitude and the radius is at most 46340, because outside that range the `int` subtractions wrap.
- `ZoneForms.IntersectsRectangleExactly`: stated only for a positive radius that fits, coordinates below 2^30 in magnitude and a rectangle with `ax1 <= ax2` and `ay1 <= ay2`, for the same reason.
- XML parsing and schema validation of the siege schedule file are not modelled, and neither is reading the file. `parseEnum` and `parseInt` arrive as parsed attributes: an optional day and integers for the hour and the concurrency limit. An unknown day name and a missing hour are not modelled.
- The values of `new SiegeScheduleDate()` come from a class that is not part of this model. They are the `defaultDate` parameter.
- `SiegeSchedule.SiegeScheduleData.GetScheduleDates`: returns the list as a value. The source hands out the live mutable list, and that aliasing is not modelled.
- `synchronized` on `load` and `computeNewHeroes`, and concurrent access in general, are not modelled.
- `HashMap` iteration order in `getHeroByClass`, `updateHeroes` and `shutdown` is not fixed. The model picks any element, and the contracts hold for every order.

## Findings

| source | as written | input that shows it | evidently intended | confidence | as-written member | corrected member |
|---|---|---|---|---|---|---|
| Gameserver/src/main/org.l2j.gameserver/org/l2j/gameserver/model/entity/Hero.java:500-503 | `saveHeroMessage` returns early when the character HAS a message, so it only ever writes a missing (null) message, and `shutdown`, which calls it for the characters that have messages, saves nothing | character 7 sets the message "glory", then the server shuts down: no write is issued | return early only when there is no message, so that shutdown writes each hero's message | not executed | Heroes.ShutdownLosesMessage, Heroes.Hero.SaveHeroMessageAsWritten, Heroes.Hero.ShutdownAsWritten | Heroes.Hero.SaveHeroMessage, Heroes.Hero.Shutdown |
