# Friend requests and the study-news feed, modelled in Dafny

This project models three parts of a React/Supabase study app:

- **The friend-request relationship of the `useFriendRequests` hook.**
  - The remote `friend_requests` table is a map from id to row, together with the order the store returns rows in.
  - The four mutations act on it: send inserts a row, accept and reject set a status, cancel deletes a row.
  - A refresh rebuilds the per-session cache from the rows that involve the signed-in user. It adds the participants' profiles, fetched in one batched lookup, and derives the `friends` list.
  - The viewer-relative resolver (`getRequestStatus`, `getRequestForUser`) and `pendingReceivedRequests` are pure queries over that cache.
- **The `FriendRequestButton` component.**
  - Its `switch (status)` decides which handlers are shown, and its `loading` flag hides them all.
  - Its accept, reject and cancel handlers do nothing when no request is found.
  - Combined with the hook, this states what each status lets a user do and what both users see afterwards.
- **The list and text logic of the `StudyNewsPopup` component.**
  - The mapping of DEV.to articles and Edutopia RSS items into news items: category by index, featured and trending flags, and the cleanup of RSS descriptions.
  - The featured-first order of the feed.
  - The category, trending and saved selections.
  - Toggling a saved item.
  - The classifier that renders each paragraph of an article as a heading, sub-heading, bullet list, numbered list or plain paragraph.

## Files

- `seqs.dfy` (`Seqs`): `Option`, and the `filter` and `find` of JavaScript arrays, with their properties.
- `friend_requests.dfy` (`FriendRequests`):
  - the table and its four writes;
  - the refresh (`View`), the resolver (`Resolve`) and the friends list;
  - lemmas relating two viewers of one table;
  - the `Store` class (the database) and the `FriendRequestsHook` class (the hook's state).
- `friend_request_button.dfy` (`FriendRequestButton`): what each status offers, the handlers' guards, the per-status outcome lemmas, and the `Button` class with its `loading` flag.
- `news_text.dfy` (`NewsText`): tag stripping, `slice`, `split`/`join`, `trim`, the paragraph classifier and `toString` of natural numbers.
- `study_news.dfy` (`StudyNews`): the item mapping, the collected feed, the featured-first order, the selections, toggling, the body text of the detail view, and the `NewsPopup` class.

## Modelling decisions

- **The database.**
  - The database answers are parameters: whether a write fails, whether the select fails, whether the profile lookup fails.
  - A failed profile lookup leaves no profiles, because `new Map(undefined)` is empty.
  - The database's default status for a new row is `pending`.
  - Record ids are natural numbers drawn from a counter.
- **Scan order.** The select has no `order by`, so the order rows come back in is the store's choice. The model fixes it to insertion order.
  - The mirror property (`StatusMirror`) holds for any order that both viewers' caches share, because then both scan the same rows in the same order. It needs no `PairUnique` assumption for that. If the store returned the pair's rows in a different order to each viewer's query, and the pair had two rows, the two viewers could find different rows.
  - `RequestIgnoresScanOrder` shows that the resolved request does not depend on the order when the table holds at most one row per pair.
- **Refresh after a mutation.** In the source the refresh is started without being awaited. The model runs it right after the write.
- **At most one row per unordered pair (`PairUnique`).** The hook and the button never check this. It is an assumption about the store, and it appears only as a precondition of the lemmas that need it.
- **Where the code lacks a check or a distinction one might expect, the model follows the code.**
  - **Error kinds.** There are no typed errors beyond the two the code produces:
    - `NotAuthenticated` from `sendRequest` without a user;
    - the store's error, as `DatabaseError`.
  - **Missing checks.** Nothing rejects:
    - sending to oneself;
    - a duplicate active request for a pair;
    - accepting, rejecting or cancelling a row that is not `pending`, or one the caller does not own.
  - **No tie-break.** Duplicate rows are not resolved to the most recent one. `find` takes the first match in cache order.
  - **Resending after a rejection.** One would expect a new request after a rejection to show as pending again. In the code, the button offers "Connect" for `rejected`, and nothing removes the rejected row. The model adds two assumptions here: the store accepts a second row for the pair, and scans return rows in insertion order, so the new row comes behind the rejected one. Under both, the rejected row stays the first match, so both users keep seeing `rejected`, and the table now holds two rows for the pair. `OutcomeFromRejected` proves this. A uniqueness constraint in the database would instead make the insert fail; the model has that outcome as `writeFails`.
  - **No stale-response guard.** The source has no guard against stale responses and no reconnect state machine.

## Model

| member | source | states |
|---|---|---|
| FriendRequests.Scan | src/hooks/useFriendRequests.tsx:31-34 | the selected rows are the stored rows in scan order, each with its own id |
| FriendRequests.Participants | src/hooks/useFriendRequests.tsx:39-43 | the id set holds the sender and the receiver of every selected row |
| FriendRequests.ParticipantsAreInvolved | src/hooks/useFriendRequests.tsx:39-43 | every id in the set is the sender or receiver of some selected row |
| FriendRequests.Inserted | src/hooks/useFriendRequests.tsx:99-101 | an insert adds exactly one new `pending` row with `sender_id` = caller, and appends it behind all existing rows |
| FriendRequests.StatusSet | src/hooks/useFriendRequests.tsx:107-125 | update-by-id changes only the status of the row with that id; an unknown id changes nothing |
| FriendRequests.Deleted | src/hooks/useFriendRequests.tsx:127-131 | delete-by-id removes exactly that row and keeps every other row unchanged; the scan is the old scan without that row, in the same order |
| FriendRequests.Written | src/hooks/useFriendRequests.tsx:96-135 | each of the four writes keeps the table well formed: every id in the scan order is a stored row, each row once, under its own id and below the next id |
| FriendRequests.ProfilesIn | src/hooks/useFriendRequests.tsx:45-48 | the profile lookup returns exactly the profiles of the requested user ids |
| FriendRequests.CollectParticipants | src/hooks/useFriendRequests.tsx:39-43 | the loop gathers exactly every sender and receiver id of the selected rows |
| FriendRequests.Enriched | src/hooks/useFriendRequests.tsx:52-56 | the enriched request keeps the row and carries the sender's and receiver's profile exactly when the map holds them |
| FriendRequests.Enrich | src/hooks/useFriendRequests.tsx:52-56 | one enriched request per row, in order, with the sender's and receiver's profile from the map |
| FriendRequests.ProfileLookupIsBatched | src/hooks/useFriendRequests.tsx:39-56 | one lookup over the set of all participant ids gives every request the profiles a lookup over all profiles would |
| FriendRequests.View | src/hooks/useFriendRequests.tsx:31-56 | every cached request is a selected row involving the viewer, and every selected row involving the viewer is cached, enriched |
| FriendRequests.ViewCons | src/hooks/useFriendRequests.tsx:31-56 | the cache is built row by row: a row enters it exactly when it involves the viewer |
| FriendRequests.ViewConcat | src/hooks/useFriendRequests.tsx:31-56 | the cache of two scans in sequence is their two caches in sequence |
| FriendRequests.ViewInvolvesSelf | src/hooks/useFriendRequests.tsx:31-34 | every cached request involves the viewer |
| FriendRequests.RequestForUser | src/hooks/useFriendRequests.tsx:150-155 | the first cached request involving both target and viewer; none without a user; for a target other than the viewer its participants are exactly the two of them |
| FriendRequests.Resolve | src/hooks/useFriendRequests.tsx:143-147 | a found request is never `none`; accepted iff its status is accepted, rejected iff rejected, pending_sent iff pending and sent by the viewer, pending_received iff pending and not sent by the viewer |
| FriendRequests.RequestStatus | src/hooks/useFriendRequests.tsx:137-148 | `none` iff no request is found; otherwise accepted/rejected by the found row's status, and pending_sent iff the viewer sent it, else pending_received |
| FriendRequests.PendingReceivedRequests | src/hooks/useFriendRequests.tsx:157-159 | exactly the cached requests received by the viewer and still pending, each as often as cached |
| FriendRequests.PendingReceivedInOrder | src/hooks/useFriendRequests.tsx:157-159 | the pending list keeps cache order |
| FriendRequests.Friends | src/hooks/useFriendRequests.tsx:61-63 | one entry per accepted request, the other participant, and only those |
| FriendRequests.Counterparty | src/hooks/useFriendRequests.tsx:63 | for a row involving the viewer, the row is between the viewer and the id returned |
| FriendRequests.FriendsInOrder | src/hooks/useFriendRequests.tsx:61-63 | the friends list keeps cache order |
| FriendRequests.MatchedRowMirror | src/hooks/useFriendRequests.tsx:138-141 | over one scan shared by both caches, viewer a looking for b and viewer b looking for a find the same row |
| FriendRequests.FindStep | src/hooks/useFriendRequests.tsx:138-141 | the first scanned row is found exactly when it is between the two users, otherwise the search continues with the rest |
| FriendRequests.StatusMirror | src/hooks/useFriendRequests.tsx:143-147 | a's status toward b is b's status toward a with pending_sent and pending_received swapped |
| FriendRequests.UniqueMatchInScan | src/hooks/useFriendRequests.tsx:138-141 | the only scanned row between a and b is the one a finds |
| FriendRequests.NoMatchInScan | src/hooks/useFriendRequests.tsx:138-141 | rows with third parties never match: with no row between a and b nothing is found |
| FriendRequests.FoundInTable | src/hooks/useFriendRequests.tsx:150-155 | in a pair-unique table, the pair's row is what the viewer finds |
| FriendRequests.AbsentInTable | src/hooks/useFriendRequests.tsx:150-155 | with no stored row for the pair, the viewer finds nothing |
| FriendRequests.RequestIgnoresScanOrder | src/hooks/useFriendRequests.tsx:31-34 | in a pair-unique table the found request does not depend on the order the store returns rows in |
| FriendRequests.SettledSeenByBoth | src/hooks/useFriendRequests.tsx:107-125 | after accept (reject) of the pair's row both participants resolve accepted (rejected) |
| FriendRequests.StatusSetKeepsPairUnique | src/hooks/useFriendRequests.tsx:107-125 | a status change keeps at most one row per pair |
| FriendRequests.CancelClearsBoth | src/hooks/useFriendRequests.tsx:127-135 | after cancel both participants resolve none |
| FriendRequests.InsertedIsOnlyMatch | src/hooks/useFriendRequests.tsx:99-101 | after a send between two users with no row yet, the new row, scanned last, is the only one between them |
| FriendRequests.InsertKeepsPairUnique | src/hooks/useFriendRequests.tsx:99-101 | such a send keeps at most one row per pair |
| FriendRequests.SendShowsPending | src/hooks/useFriendRequests.tsx:96-105 | a send from a to b with no row between them shows pending_sent to a and pending_received to b, and keeps the table pair-unique |
| FriendRequests.InsertBehindFirstMatch | src/hooks/useFriendRequests.tsx:138-141 | an insert never changes a request already found, because new rows go behind it |
| FriendRequests.ViewOfPairUniqueTable | src/hooks/useFriendRequests.tsx:31-58 | the cache of a pair-unique table is pair-unique and holds only requests involving the viewer |
| FriendRequests.CacheMatchUnique | src/hooks/useFriendRequests.tsx:150-155 | in a pair-unique cache, a request between the viewer and f is the one found for f |
| FriendRequests.FriendsAgreeWithStatus | src/hooks/useFriendRequests.tsx:61-64 | f is a friend iff the resolver says accepted for f, in a pair-unique cache |
| FriendRequests.PendingReceivedAgreesWithStatus | src/hooks/useFriendRequests.tsx:157-159 | every request in the pending list resolves to pending_received for its sender |
| FriendRequests.Store.constructor | src/hooks/useFriendRequests.tsx:31-34 | the store starts as an empty, well-formed table with the given profiles |
| FriendRequests.Store.Insert | src/hooks/useFriendRequests.tsx:99-101 | returns the store's error and leaves the table alone on failure, inserts otherwise |
| FriendRequests.Store.Update | src/hooks/useFriendRequests.tsx:108-111 | returns the store's error and leaves the table alone on failure, sets the status otherwise |
| FriendRequests.Store.Delete | src/hooks/useFriendRequests.tsx:128-131 | returns the store's error and leaves the table alone on failure, deletes otherwise |
| FriendRequests.FriendRequestsHook.constructor | src/hooks/useFriendRequests.tsx:22-25 | the hook starts with no requests, no friends and `loading` true |
| FriendRequests.FriendRequestsHook.Refresh | src/hooks/useFriendRequests.tsx:27-70 | no user: nothing changes; failed select: cache and friends kept, loading false; else the cache is replaced wholesale by the viewer's enriched rows and friends derived from it |
| FriendRequests.FriendRequestsHook.OnTableChange | src/hooks/useFriendRequests.tsx:85-87 | every change notification performs a refresh |
| FriendRequests.FriendRequestsHook.SendRequest | src/hooks/useFriendRequests.tsx:96-105 | no user: NotAuthenticated and nothing written; else the insert's error is returned and a refresh follows only on success |
| FriendRequests.FriendRequestsHook.AcceptRequest | src/hooks/useFriendRequests.tsx:107-115 | sets the row's status to accepted without checking it, returns the store's error, refreshes only on success |
| FriendRequests.FriendRequestsHook.RejectRequest | src/hooks/useFriendRequests.tsx:117-125 | sets the row's status to rejected, returns the store's error, refreshes only on success |
| FriendRequests.FriendRequestsHook.CancelRequest | src/hooks/useFriendRequests.tsx:127-135 | deletes the row, returns the store's error, refreshes only on success |
| FriendRequests.RefreshTwice | src/hooks/useFriendRequests.tsx:27-70 | two refreshes with no write in between leave the same cache |
| FriendRequestButton.Offers | src/components/FriendRequestButton.tsx:91-141 | while loading nothing is clickable; otherwise at least one handler is shown |
| FriendRequestButton.OffersByStatus | src/components/FriendRequestButton.tsx:91-141 | accepted offers only navigation to `/messages/{userId}`; pending_sent only cancel of the matched request; pending_received exactly accept and reject of it; rejected and none a new request; loading nothing |
| FriendRequestButton.Issues | src/components/FriendRequestButton.tsx:22-89 | navigation issues no mutation; connect sends to this user; accept, reject and cancel issue nothing iff no request is found, and otherwise issue exactly the accept, reject and cancel mutation of the found request's id |
| FriendRequestButton.IssuedBy | src/components/FriendRequestButton.tsx:22-89 | the mutations a run of handler calls issues: at most one per call, each issued by one of them, and every call's issued mutation is among them |
| FriendRequestButton.IssuedByOne | src/components/FriendRequestButton.tsx:22-89 | one handler call issues exactly its own mutation, or nothing |
| FriendRequestButton.IssuedByConcat | src/components/FriendRequestButton.tsx:22-89 | the mutations of two runs of calls are those of the first run followed by those of the second, in call order |
| FriendRequestButton.OfferedMutations | src/components/FriendRequestButton.tsx:91-141 | while loading nothing can be issued; otherwise every offered mutation is a send to this user or targets the request found for this user |
| FriendRequestButton.FoundRowIsStored | src/components/FriendRequestButton.tsx:19-20 | a request the button finds is a row of the table |
| FriendRequestButton.NotFoundMeansNoRow | src/components/FriendRequestButton.tsx:19-20 | when the button finds no request, no stored row joins the two users |
| FriendRequestButton.OutcomeFromPendingReceived | src/components/FriendRequestButton.tsx:119-130 | from pending_received only accept or reject is reachable, and both users then see accepted or rejected |
| FriendRequestButton.OutcomeFromPendingSent | src/components/FriendRequestButton.tsx:111-117 | from pending_sent only cancel is reachable, and both users then see none |
| FriendRequestButton.OutcomeFromNone | src/components/FriendRequestButton.tsx:132-140 | from none only a send to this user is reachable, which both users then see as pending in their own direction |
| FriendRequestButton.OutcomeFromRejected | src/components/FriendRequestButton.tsx:132-140 | from rejected a send is offered, but both users keep seeing rejected and the pair now has two rows |
| FriendRequestButton.Button.constructor | src/components/FriendRequestButton.tsx:17 | a button starts not loading |
| FriendRequestButton.Button.Click | src/components/FriendRequestButton.tsx:22-89 | a handler whose request is missing, or navigation, changes nothing and reports no error; otherwise loading is set while the mutation runs and cleared afterwards, on failure too; a send without a user reports NotAuthenticated and writes nothing; every other mutation returns the store's error, changes the table as the write says and refreshes the hook only on success |
| Seqs.Filter | src/hooks/useFriendRequests.tsx:157-159 | `filter` keeps exactly the elements that pass, never more than there were |
| Seqs.FilterMultiset | src/components/StudyNewsPopup.tsx:336-337 | `filter` keeps each passing element as often as it occurs and drops the rest |
| Seqs.FilterConcat | src/components/StudyNewsPopup.tsx:331-337 | `filter` keeps order: filtering two parts in sequence is filtering each part |
| Seqs.FindFirst | src/hooks/useFriendRequests.tsx:150-155 | `find` returns the first element that passes, none iff none does |
| Seqs.FindFirstConcat | src/hooks/useFriendRequests.tsx:150-155 | `find` looks in a later part only when an earlier part has no match |
| Seqs.Get | src/hooks/useFriendRequests.tsx:54-55 | `Map.get` gives a value iff the key is present, and then the key's value |
| NewsText.IndexOfChar | src/components/StudyNewsPopup.tsx:256 | the first position of a character, none iff it does not occur |
| NewsText.StripTags | src/components/StudyNewsPopup.tsx:256 | removing `<...>` tags leaves no `<` followed by a `>`, only characters of the input, and is never longer |
| NewsText.StripTagsFixesTagFree | src/components/StudyNewsPopup.tsx:256 | tag-free text is unchanged |
| NewsText.StripTagsIdempotent | src/components/StudyNewsPopup.tsx:256 | stripping twice is stripping once |
| NewsText.StripTagsKeepsPlainPrefix | src/components/StudyNewsPopup.tsx:256 | text before the first `<` is kept verbatim |
| NewsText.DropsCompleteTag | src/components/StudyNewsPopup.tsx:256 | a complete `<...>` tag is removed whole |
| NewsText.Truncate | src/components/StudyNewsPopup.tsx:256 | `slice(0, n)` is the longest prefix of at most n characters |
| NewsText.TruncateKeepsNoTags | src/components/StudyNewsPopup.tsx:256 | cutting stripped text keeps it tag-free |
| NewsText.IndexOf | src/components/StudyNewsPopup.tsx:406 | the first occurrence of a separator, none iff the text does not contain it |
| NewsText.Split | src/components/StudyNewsPopup.tsx:393 | `split` gives at least one piece, and no piece contains the separator |
| NewsText.SplitAtFirst | src/components/StudyNewsPopup.tsx:393 | without the separator the text is one piece; otherwise the first piece ends at the leftmost occurrence and the rest is the split of what follows it |
| NewsText.SplitJoin | src/components/StudyNewsPopup.tsx:408 | lines without the one-character separator, joined by it, split back into the same lines |
| NewsText.JoinSplit | src/components/StudyNewsPopup.tsx:393 | joining the pieces with the separator gives the text back |
| NewsText.SplitLeadingSeparator | src/components/StudyNewsPopup.tsx:401 | a text starting with `**` splits into an empty piece and at least one more, so `split('**')[1]` exists |
| NewsText.LeadingDigits | src/components/StudyNewsPopup.tsx:414 | the length of the run of decimal digits at the start |
| NewsText.NumberedIffPattern | src/components/StudyNewsPopup.tsx:414 | the digit scan decides exactly the pattern `^\d+\.` |
| NewsText.TrimStart | src/components/StudyNewsPopup.tsx:410 | drops exactly the leading white space |
| NewsText.TrimEnd | src/components/StudyNewsPopup.tsx:410 | drops exactly the trailing white space |
| NewsText.Trim | src/components/StudyNewsPopup.tsx:410 | `trim` leaves no white space at either end and is never longer |
| NewsText.TrimExact | src/components/StudyNewsPopup.tsx:410 | `trim` keeps exactly the slice between a white-space prefix and a white-space suffix |
| NewsText.TrimIdempotent | src/components/StudyNewsPopup.tsx:410 | trimming twice is trimming once |
| NewsText.ReplaceFirst | src/components/StudyNewsPopup.tsx:410 | `replace('•', '')` removes exactly the leftmost occurrence, keeping everything around it, and changes nothing when there is none |
| NewsText.DropNumberShape | src/components/StudyNewsPopup.tsx:418 | only a line starting with digits and a dot changes, and what is left is a shorter suffix of it |
| NewsText.DropNumberTrimsStart | src/components/StudyNewsPopup.tsx:418 | the white space after the number's dot is removed with it |
| NewsText.Classify | src/components/StudyNewsPopup.tsx:395-426 | heading iff it starts and ends with `**`, its text the paragraph with every `**` removed; sub-heading iff it only starts with it, its title the second `**`-piece and its rest the remaining pieces joined; bullets iff not bold and it starts with `•` or has a newline followed by `•`; numbered iff none of those and it starts with digits and a dot; list items as the line rules give them; a plain paragraph verbatim |
| NewsText.ClassifyKinds | src/components/StudyNewsPopup.tsx:395-426 | the five branches in order: heading iff it starts and ends with `**`; sub-heading iff it only starts with it; bullets iff it starts with `•` or contains a newline followed by `•`; numbered iff it matches `^\d+\.`; else plain |
| NewsText.HasBulletsIffLine | src/components/StudyNewsPopup.tsx:406 | `startsWith('•') \|\| includes('\n•')` holds exactly when some line of the paragraph starts with `•` |
| NewsText.HeadingPieces | src/components/StudyNewsPopup.tsx:397 | `**text**` splits at `**` into an empty piece, `text` and an empty piece |
| NewsText.HeadingText | src/components/StudyNewsPopup.tsx:397 | `**text**`, with no `**` inside and not ending in `*`, is a heading whose text is exactly `text` |
| NewsText.SubHeadingPieces | src/components/StudyNewsPopup.tsx:401 | `**title**rest` splits into an empty piece, `title` and the pieces of `rest` |
| NewsText.SubHeadingText | src/components/StudyNewsPopup.tsx:399-405 | `**title**rest`, with a title free of `**` and not ending in `*`, and a non-empty rest not ending in `*`, is a sub-heading with exactly that title and with `rest` as its rest, `**` removed |
| NewsText.SubHeadingTitle | src/components/StudyNewsPopup.tsx:401 | a sub-heading's title holds no `**`, follows the opening `**`, and runs up to the next `**` or the end |
| NewsText.LeadingPiece | src/components/StudyNewsPopup.tsx:401 | a join whose first piece is empty starts with the separator and the second piece |
| NewsText.BulletItems | src/components/StudyNewsPopup.tsx:406-413 | a bullet list has one item per line of the paragraph, in order, each that line with its first `•` removed and trimmed |
| NewsText.BulletItem | src/components/StudyNewsPopup.tsx:410 | `item.replace('•', '').trim()` leaves no white space at either end |
| NewsText.BulletLineItem | src/components/StudyNewsPopup.tsx:410 | a line `• text` gives the item `text` |
| NewsText.BulletListOfLines | src/components/StudyNewsPopup.tsx:406-413 | a paragraph of lines `• text` lists exactly those texts, in order |
| NewsText.NumberedItems | src/components/StudyNewsPopup.tsx:414-421 | a numbered list has one item per line of the paragraph, in order, each that line with its leading number, dot and white space removed and trimmed |
| NewsText.NumberedItem | src/components/StudyNewsPopup.tsx:418 | `item.replace(/^\d+\.\s*/, '').trim()` leaves no white space at either end |
| NewsText.DropNumberOfLine | src/components/StudyNewsPopup.tsx:418 | the number, its dot and the space after them are exactly what is removed from a line `n. text` |
| NewsText.NumberedLineItem | src/components/StudyNewsPopup.tsx:418 | a line `n. text` gives the item `text`, whatever the number |
| NewsText.NumberedListOfLines | src/components/StudyNewsPopup.tsx:414-421 | a paragraph of lines `1. text`, `2. text`, ... lists exactly those texts, in order |
| NewsText.Layout | src/components/StudyNewsPopup.tsx:393-428 | one block per piece of `split('\n\n')`, in order, each the classification of its piece |
| NewsText.DigitChar | src/components/StudyNewsPopup.tsx:254 | a digit below ten is written as a decimal digit character |
| NewsText.NatToString | src/components/StudyNewsPopup.tsx:83 | `toString` of a natural number is a non-empty string of decimal digits |
| NewsText.ParseNatToString | src/components/StudyNewsPopup.tsx:254 | reading the written number back gives the number |
| NewsText.NatToStringInjective | src/components/StudyNewsPopup.tsx:254 | different numbers give different strings, so different ids |
| StudyNews.Or | src/components/StudyNewsPopup.tsx:85 | `x \|\| fallback`: the fallback when x is absent or empty |
| StudyNews.CategoryAt | src/components/StudyNewsPopup.tsx:87 | the category of index i is entry i mod 4 of news, article, material, video |
| StudyNews.DevItem | src/components/StudyNewsPopup.tsx:82-95 | an article's item takes its id as a string, its title and url; the description when non-empty, else the fallback text; the user's name as source when non-empty, else `DEV Community`; the user's name as author; the raw description as content; the category by index; trending iff more than 50 reactions; featured iff index 0 |
| StudyNews.DevItems | src/components/StudyNewsPopup.tsx:82-95 | one item per article in order; category by index mod 4 (news, article, material, video); trending iff more than 50 reactions; featured iff index 0 |
| StudyNews.OnlyFirstFeatured | src/components/StudyNewsPopup.tsx:93 | the first article's item is the only featured one |
| StudyNews.CleanDescription | src/components/StudyNewsPopup.tsx:256 | an RSS description becomes its tag-stripped text cut to 200 characters, or the fallback text when it is absent or strips to nothing; the result is never empty, tag-free and at most 200 characters |
| StudyNews.OnlyTagsFallsBack | src/components/StudyNewsPopup.tsx:256 | a description that is only a tag falls back like a missing one |
| StudyNews.ShortPlainDescriptionKept | src/components/StudyNewsPopup.tsx:256 | a tag-free description of at most 200 characters is kept |
| StudyNews.RssItems | src/components/StudyNewsPopup.tsx:253-266 | the first 8 RSS items, or all of them when there are fewer, each mapped at its own index, in order |
| StudyNews.RssItemAt | src/components/StudyNewsPopup.tsx:253-266 | an RSS item becomes an unfeatured Edutopia article with id `edutopia-<index>`, its title and link, the cleaned description, as content its description with tags stripped (none without one), its author, and trending iff index below 3 |
| StudyNews.RssItemsShape | src/components/StudyNewsPopup.tsx:253-266 | RSS items are unfeatured articles with clean descriptions; trending iff index below 3; ids pairwise different |
| StudyNews.Curated | src/components/StudyNewsPopup.tsx:98-243 | four curated entries, none featured, the first three trending |
| StudyNews.Collected | src/components/StudyNewsPopup.tsx:245-268 | the collected list is the articles' items, then the four curated entries, then the used RSS items when the feed answered with a list, in that order |
| StudyNews.CollectedFeatured | src/components/StudyNewsPopup.tsx:82-268 | the collected list holds exactly one featured item, the first article's, when there are articles, else none |
| StudyNews.FeaturedFirst | src/components/StudyNewsPopup.tsx:277-279 | with a featured item: that first featured item, then the unfeatured ones in order; otherwise unchanged |
| StudyNews.FeaturedFirstShape | src/components/StudyNewsPopup.tsx:277-279 | after the reorder the unfeatured items keep their order and at most one featured item is left, at the front |
| StudyNews.FeaturedFirstIdempotent | src/components/StudyNewsPopup.tsx:277-279 | reordering twice is reordering once |
| StudyNews.FeaturedFirstPermutes | src/components/StudyNewsPopup.tsx:277-279 | with exactly one featured item the reorder is a permutation |
| StudyNews.ReorderOneFeatured | src/components/StudyNewsPopup.tsx:275-279 | any shuffle of a list with one featured item x becomes a permutation of it led by x |
| StudyNews.ReorderNoFeatured | src/components/StudyNewsPopup.tsx:275-279 | any shuffle of a list with no featured item is left as shuffled |
| StudyNews.ShuffledFeed | src/components/StudyNewsPopup.tsx:245-279 | whatever the shuffle, the feed holds the collected items once each, led by the first article's item when there are articles |
| StudyNews.FilteredItems | src/components/StudyNewsPopup.tsx:331-333 | `all` gives the feed; a category gives exactly its items in feed order |
| StudyNews.CategoryTabsPartition | src/components/StudyNewsPopup.tsx:331-333 | the four category tabs split the feed, each item under its own tab only |
| StudyNews.TrendingItems | src/components/StudyNewsPopup.tsx:336 | the feed filtered to its trending items, in feed order, each as often as in the feed |
| StudyNews.TrendingInFeedOrder | src/components/StudyNewsPopup.tsx:336 | the trending tab of two feed parts is the trending tab of the first followed by that of the second |
| StudyNews.SavedNewsItems | src/components/StudyNewsPopup.tsx:337 | exactly the items whose id is saved, each as often as in the feed, as a filter of the feed, so in feed order |
| StudyNews.SavedInFeedOrder | src/components/StudyNewsPopup.tsx:337 | the saved tab of two feed parts is the saved tab of the first followed by that of the second |
| StudyNews.SavedOrderIgnored | src/components/StudyNewsPopup.tsx:337 | the order and repetition of saved ids do not change the saved tab |
| StudyNews.FeaturedItem | src/components/StudyNewsPopup.tsx:335 | the first featured item of the feed, none iff none is featured |
| StudyNews.BannerIsFirst | src/components/StudyNewsPopup.tsx:335 | on a reordered feed the banner shows the first item |
| StudyNews.Toggled | src/components/StudyNewsPopup.tsx:323-326 | a saved id is removed with all its occurrences, others keeping their order; an unsaved id is appended |
| StudyNews.ToggleFlips | src/components/StudyNewsPopup.tsx:323-326 | toggling flips membership of the id and keeps every other id as often as before |
| StudyNews.ToggleTwiceRestores | src/components/StudyNewsPopup.tsx:323-326 | toggling an unsaved id twice restores the saved list |
| StudyNews.ToggleTwiceMovesToEnd | src/components/StudyNewsPopup.tsx:323-326 | toggling a saved id twice moves it to the end, once |
| StudyNews.ToggleShowsInSaved | src/components/StudyNewsPopup.tsx:323-337 | toggling a feed item's id adds it to, or removes it from, the saved tab |
| StudyNews.BodyText | src/components/StudyNewsPopup.tsx:393 | the content when non-empty, else the description |
| StudyNews.NewsPopup.constructor | src/components/StudyNewsPopup.tsx:59-66 | the popup starts with the stored saved list, an empty feed, not loading, on `all` |
| StudyNews.NewsPopup.ToggleSaveItem | src/components/StudyNewsPopup.tsx:323-329 | the saved list becomes its toggled value |
| StudyNews.NewsPopup.SelectCategory | src/components/StudyNewsPopup.tsx:538 | the chosen tab becomes the selected category |
| StudyNews.NewsPopup.FetchStudyNews | src/components/StudyNewsPopup.tsx:76-321 | a failed article fetch shows the fallback list; otherwise the feed is the featured-first order of the shuffled collection, a permutation of it, led by the first article's item; loading ends false |
| StudyNews.NewsPopup.Open | src/components/StudyNewsPopup.tsx:69-73 | opening with a non-empty feed changes nothing; with an empty feed it fetches: the fallback list when the article fetch fails, else the featured-first order of the shuffle, a permutation of the collection; loading ends false |

## Left out

- The realtime channel subscription and its `removeChannel` teardown are not modelled. They are a foreign library and asynchronous callbacks. A change notification is the `OnTableChange` method, which refreshes.
- The PostgREST query builders are not modelled; a map-backed table stands in for them. The order rows come back in is fixed to insertion order, because the source does not specify it.
- `created_at` is not modelled. Record ids are natural numbers from a counter, not strings.
- Asynchrony and interleaving are not modelled. The refresh a mutation starts is not awaited in the source; the model runs it right after the write, so overlapping refreshes and stale responses are not modelled.
- Toasts, navigation, icons and all JSX are not modelled. The accepted status's navigation appears only as the `Navigate` action with its path.
- The `console.error` and `console.log` calls (useFriendRequests.tsx:66, StudyNewsPopup.tsx:271 and 281) are not modelled; they only write to the console.
- The refresh when the hook mounts and the effect running again when `user` changes (useFriendRequests.tsx:70-94) are not modelled as such. A refresh is a call of `Refresh`, and a changed user is a hook constructed for that user.
- The `FriendRequestsDropdown` component and the login-notification function are not part of this model.
- `fetch`, `response.json()` and the untyped data are not modelled; their results are parameters of `FetchStudyNews`.
- The `Math.random` sort is not modelled. It is a parameter `shuffled`, required to be a permutation of the collected list.
- The long bodies of the curated entries are a parameter. So is the whole hard-coded fallback list.
- `imageUrl`, `timestamp` (`Date`, `toLocaleDateString`), `localStorage` persistence and `window.open` are not modelled.
- Strings are sequences of characters. JavaScript counts UTF-16 code units in `slice(0, 200)`; a character outside the Basic Multilingual Plane counts as two units there and as one here.
- The `id` of a DEV.to article is a natural number. Negative or fractional ids are not modelled.
- `selectedNews` is not modelled, and neither are the banner's and tabs' rendering beyond the lists they show.
