# CCSBA community platform — a Dafny model of its browser-side core

The Connecticut Cannabis Small Business Alliance platform is a single-page
React application. It keeps all of its state in the browser's
`localStorage`:
- `userCredentials` holds the accounts;
- `ccsba_all_posts` holds the feed;
- `ccsba_messages` holds direct messages;
- `ccsba_notification_details` holds notifications;
- `profile_<email>` holds one profile per member;
- `userEmail` and `authToken` hold the session.

Every handler reads one or more of these keys, changes them and writes them back.

This project models those handlers in Dafny, component by component:
- logging in and out;
- the feed: posting, reacting, commenting, deleting and warning;
- the header's badges, notification panel and password change;
- credential administration;
- direct messages: the inbox and the member directory;
- the profile page and the page of another member;
- the post composer;
- the password form.

The store is one class, `Storage.Store`, with one field per key. Each handler is a
method that changes exactly the fields for the keys the source writes. Component
state (`useState`) is a small class per component.

Each handler's effect is specified by pure functions over sequences and maps:
- `Feed.ReactAll` and `Feed.CommentNotifs`;
- `Header.MarkMineRead`;
- `MessageList.UserMessages`;
- `MemberDirectory.Directory`;
- and the others in the table below.

The source promises facts about the combination of these functions. Lemmas prove
those facts:
- which login rule wins;
- that opening the panel clears the badge;
- that an email stays unique under every administrative action;
- that re-stamping a profile commutes with the per-member post filter;
- that a sorted directory is a permutation of what was collected.

Modules:
- `Records`: the stored records, the fixed accounts and passphrases, and `businessName || name || email`.
- `Seqs`: order-preserving filter, count and first-match search, with their algebra.
- `Text`: the whitespace test of `String.prototype.trim`, http/https prefixing, and phone formatting.
- `Storage`: the store, profile keys, and the author snapshot of the current user.
- `App`, `Feed`, `Header`, `UserManagement`, `MessageList`, `MemberDirectory`, `ProfileArea`, `UserProfileView`, `CreatePost`, `ChangePassword`: one module per source component.

Ids, timestamps, the current user's email and, for the composer, the outcome of the
link-preview lookup and the data URL of an upload are all parameters. Timestamps are
integers ordered as the source's date strings are.

## Model

| member | source | states |
|---|---|---|
| Records.DisplayName | src/components/feed/Feed.tsx:122 | the shown name is the business name when it is non-empty, else the personal name when that is non-empty, else the email; it is empty only for an empty email |
| Text.TrimEmptyIffBlank | src/components/admin/UserManagement.tsx:31 | `s.trim()` is empty exactly when every character of `s` is whitespace, so the blank tests of every handler can be read as `IsBlank` |
| Text.WithScheme | src/components/feed/CreatePost.tsx:87-90 | the result always starts with http:// or https:// (any case); the input is kept verbatim iff it already did, otherwise `https://` is put in front |
| Text.FormatWebsiteUrl | src/components/profile/UserProfileView.tsx:151-157 | '' stays ''; a url that has an http(s) scheme (in any case) is unchanged; any other non-empty url is `https://` followed by the url |
| Text.FormatWebsiteUrlIdempotent | src/components/profile/UserProfileView.tsx:151-157 | formatting a formatted url changes nothing |
| Text.FormatPhoneNumber | src/components/profile/ProfileArea.tsx:180-186 | fewer than 10 digits give the bare digits, exactly 10 give ddd-ddd-dddd with the digits in order, more than 10 give the input back; the digits are always preserved |
| Text.FormatPhoneNumberIdempotent | src/components/profile/ProfileArea.tsx:180-186 | formatting a formatted number changes nothing, so formatting twice per keystroke is harmless |
| Storage.ProfileKey | src/components/profile/ProfileArea.tsx:82 | the key is the eight characters `profile_` followed by the email, and nothing else |
| Storage.ProfileKeyInjective | src/components/profile/ProfileArea.tsx:82 | two members never share a profile key |
| Storage.ActorName | src/components/messaging/MemberDirectory.tsx:82-90 | the actor name is the email without a stored profile, else the profile's display name |
| Storage.AvatarOrDefault | src/components/feed/Feed.tsx:124 | a non-empty avatar is kept, a missing or empty one becomes the default picture |
| Storage.CurrentAuthor | src/components/feed/Feed.tsx:116-131 | the author snapshot carries the current email and the actor name; its avatar is the profile's avatar, or the default avatar when the profile has none or is missing |
| App.FindCred | src/App.tsx:36 | lookup by exact email: none iff no credential has the email, otherwise the first credential that has it |
| App.LoginRule | src/App.tsx:33-75 | a login succeeds iff the operator, board, custom-password or member rule holds; the session is an admin one iff the operator or board rule holds, and its token is `user-token` iff it is not |
| App.OperatorLogin | src/App.tsx:39-45 | either operator address with `THC` gives an admin session with `admin-token`, whatever the credentials hold |
| App.BoardLogin | src/App.tsx:48-54 | a non-operator whose first credential is admin-flagged gets `board-member-token` with `THC` |
| App.CustomPasswordLogin | src/App.tsx:57-63 | a non-empty custom password other than `THC` gives a non-admin session, even for an admin-flagged credential |
| App.MemberPassphraseSurvivesCustomPassword | src/App.tsx:66-72 | a non-admin member still logs in with `CBD` after setting a custom password |
| App.AdminRefusesMemberPassphrase | src/App.tsx:48-74 | an admin-flagged credential is refused with `CBD` unless that is its custom password |
| App.UnknownEmailRefused | src/App.tsx:74 | a non-operator address with no credential is refused whatever the password |
| App.AdminLoginSurvivesReload | src/App.tsx:15-24 | an address that logged in as admin is derived as admin again on reload |
| App.CustomPasswordBoardMemberPromotedOnReload | src/App.tsx:15-63 | a board member who logs in with a custom password gets a user session but is derived as admin on reload |
| Seqs.Count | src/App.tsx:29 | `filter(p).length` is the number of positions whose element passes `p`; zero iff no element passes |
| Seqs.CountSnoc | src/App.tsx:29 | appending one element raises the count by one exactly when it passes |
| App.UnreadCount | src/App.tsx:27-30 | the badge is the number of positions holding an unread notification addressed to the current email; so it is zero iff all of those are read, and zero without a current email |
| App.Shell.constructor | src/App.tsx:10-13 | logged out, not admin, feed view, no unread notifications |
| App.Shell.Startup | src/App.tsx:15-31 | with a stored session the shell is logged in with the derived admin flag; the badge is the unread count |
| App.Shell.Login | src/App.tsx:33-75 | succeeds iff the login rule grants; then the session holds the email and the granted token and the admin flag is the grant's; a refusal writes nothing |
| App.Shell.Logout | src/App.tsx:77-83 | the session is removed, the shell is logged out, not admin, on the feed view |
| App.Shell.HandleNotification | src/App.tsx:85-90 | the badge is recomputed from the stored notifications |
| Feed.WelcomePost | src/components/feed/Feed.tsx:52-64 | the seeded post has id '1', the operator as author, zero counters and no comments |
| Feed.FreshPost | src/components/feed/Feed.tsx:136-148 | a new post has the given id, author and content, zero counters and no comments |
| Feed.FeedAdmin | src/components/feed/Feed.tsx:71-78 | the feed's admin flag is false unless a non-empty email is stored, and for a non-empty email equals `App.DerivedAdmin` of that email |
| Feed.ManagementVisibility | src/components/feed/Feed.tsx:318 | logged out, no post shows the delete and warn controls; under a non-empty email, an operator or an admin-flagged credential sees them on every post; any other member, and a stored empty email whatever its credential, sees them exactly on their own posts |
| Feed.AdminLoginManagesEveryPost | src/components/feed/Feed.tsx:71-78 | whoever logged in under a non-empty email with an admin grant sees the controls on every post |
| Feed.EmptyEmailAdminGetsNoControls | src/components/feed/Feed.tsx:73 | a board login under an admin-flagged credential with email '' is admin for the shell, yet gets no controls on the welcome post |
| Feed.Bump | src/components/feed/Feed.tsx:260 | a like adds one to `likes`, a thumbs-up one to `thumbsUp`, and nothing else about the post changes |
| Feed.ReactAll | src/components/feed/Feed.tsx:242-264 | same length and order; every post with the id is bumped, every other post is untouched |
| Feed.ReactNotifs | src/components/feed/Feed.tsx:245-257 | at most one notification per post, each unread, of the reaction's type and addressed to the given author |
| Feed.ReactNotifsNone | src/components/feed/Feed.tsx:242-264 | reacting to an id no post has notifies nobody |
| Feed.ReactNotifsUnique | src/components/feed/Feed.tsx:245-257 | with unique post ids a reaction raises exactly one notification, quoting that post |
| Feed.ReactTimesCounts | src/components/feed/Feed.tsx:260 | n reactions of one kind raise that counter of the post by exactly n |
| Feed.ReactAllKeepsIdsUnique | src/components/feed/Feed.tsx:242-264 | reacting keeps post ids unique |
| Feed.CommentAll | src/components/feed/Feed.tsx:171-196 | same length and order; the comment is appended to the end of every post with the id, other posts are untouched |
| Feed.CommentNotifs | src/components/feed/Feed.tsx:173-189 | each comment notification is unread, of type comment and never addressed to the commenter |
| Feed.OwnPostCommentSilent | src/components/feed/Feed.tsx:174 | commenting on one's own post notifies nobody |
| Feed.CommentNotifiesAuthorOnce | src/components/feed/Feed.tsx:173-189 | with unique ids a comment on someone else's post notifies that author exactly once |
| Feed.WarningNotif | src/components/feed/Feed.tsx:219-229 | the warning is unread, addressed to the author, from the admin name, and quotes the post and its id |
| Feed.FindPost | src/components/feed/Feed.tsx:215 | none iff no post has the id, otherwise the first stored post with that id |
| Feed.PostsBy | src/components/profile/UserProfileView.tsx:66-67 | exactly the posts whose author email is the given one |
| Feed.ProfileUpdate | src/components/feed/Feed.tsx:91-106 | same length and order; each post of the member gets the new name and avatar, other posts and comments are untouched |
| Feed.ProfileUpdateLastWins | src/components/feed/Feed.tsx:91-106 | two saves in a row leave the posts as the last save alone would |
| Feed.ProfileUpdatePostsBy | src/components/profile/ProfileArea.tsx:85-99 | re-stamping commutes with taking one member's posts |
| Feed.LoadPosts | src/components/feed/Feed.tsx:47-69 | stored posts are shown unchanged; with none stored exactly the welcome post is stored and shown |
| Feed.NewPost | src/components/feed/Feed.tsx:134-156 | the new post, authored by the current user's snapshot, is prepended and the earlier posts follow in order |
| Feed.MapReact | src/components/feed/Feed.tsx:242-264 | the loop over the posts computes the bumped posts and the notifications it raises |
| Feed.React | src/components/feed/Feed.tsx:239-303 | one's own post: nothing is written; otherwise the posts are bumped and the notifications put in front |
| Feed.MapComment | src/components/feed/Feed.tsx:171-196 | the loop over the posts computes the commented posts and the notifications it raises |
| Feed.AddComment | src/components/feed/Feed.tsx:158-203 | posts get the comment, written by the current user's snapshot; notifications are put in front |
| Feed.DeletePost | src/components/feed/Feed.tsx:205-212 | every post with the id is removed, the rest keep their order |
| Feed.WarnUser | src/components/feed/Feed.tsx:214-237 | unknown id: nothing changes; otherwise exactly one warning is put in front of the notifications |
| Header.UnreadMessages | src/components/layout/Header.tsx:98-105 | the number of positions holding an unread message to the current email; zero iff all of those are read, and zero without a current email |
| Header.MyNotifications | src/components/layout/Header.tsx:110-113 | exactly the notifications addressed to the current email |
| Header.UnreadShown | src/components/layout/Header.tsx:114 | the number of positions holding an unread shown notification; zero iff every shown notification is read |
| Header.BadgeAgreesWithShell | src/components/layout/Header.tsx:107-116 | the header's badge always equals the shell's unread count |
| Header.MarkMineRead | src/components/layout/Header.tsx:134-139 | same length and order; the current user's notifications become read, all others are untouched |
| Header.OpeningClearsBadge | src/components/layout/Header.tsx:141-146 | after opening the count is zero and every notification of the current user is read |
| Header.ShownAfterOpening | src/components/layout/Header.tsx:143-146 | the list shown after opening is the user's list before, each marked read |
| Header.OpeningKeepsOthers | src/components/layout/Header.tsx:134-139 | opening changes no other user's notifications |
| Header.Panel.constructor | src/components/layout/Header.tsx:28-32 | panel closed, empty list, both badges zero |
| Header.Panel.CheckUnreadMessages | src/components/layout/Header.tsx:98-105 | the message badge is recomputed from the store |
| Header.Panel.CheckNotifications | src/components/layout/Header.tsx:107-116 | the shown list and the badge are recomputed from the store |
| Header.Panel.NotificationClick | src/components/layout/Header.tsx:130-149 | opening marks the user's notifications read, shows them and zeroes the badge; closing only toggles |
| Header.SetCustomPassword | src/components/layout/Header.tsx:155-160 | same length and order; credentials of the email get the custom password, others are untouched |
| Header.NewPasswordLogsIn | src/components/layout/Header.tsx:151-162 | after a change the member, operator addresses included, logs in with the new password as a non-admin |
| Header.PasswordChange | src/components/layout/Header.tsx:151-162 | with a current email the credentials are rewritten, without one nothing is written |
| Header.NotificationIcon | src/components/layout/Header.tsx:166-181 | the default icon is given exactly to types outside the five named ones |
| Header.IconsDistinct | src/components/layout/Header.tsx:166-181 | the five named types get five different icons |
| Header.MessageKindGetsDefaultIcon | src/components/layout/Header.tsx:166-181 | a message notification gets the default icon and every other kind does not |
| UserManagement.InitialPassword | src/components/admin/UserManagement.tsx:42 | `THC` for a board member and `CBD` for a member, and nothing else |
| UserManagement.NewCred | src/components/admin/UserManagement.tsx:40-45 | the stored credential has the raw email, the role and the role's password, and no custom password |
| UserManagement.WelcomeNotif | src/components/admin/UserManagement.tsx:67-81 | the welcome is an unread system notification to the new address, carrying its initial password |
| UserManagement.Rows | src/components/admin/UserManagement.tsx:18-26 | one table row per credential, same email and role |
| UserManagement.Rename | src/components/admin/UserManagement.tsx:133-135 | same length and order; only the email of matching credentials changes |
| UserManagement.RenameRows | src/components/admin/UserManagement.tsx:138-140 | the table is renamed the same way |
| UserManagement.Admin.constructor | src/components/admin/UserManagement.tsx:12-26 | the table lists the stored credentials; empty inputs, no message |
| UserManagement.Admin.AddUser | src/components/admin/UserManagement.tsx:28-94 | a blank email or a known email is refused with its message and nothing written; otherwise the credential is appended and the welcome put in front |
| UserManagement.Admin.Delete | src/components/admin/UserManagement.tsx:96-108 | when confirmed every credential and row with the email is removed, the rest keep their order |
| UserManagement.Admin.Edit | src/components/admin/UserManagement.tsx:115-145 | blank or taken email refused; otherwise only credentials and rows are renamed |
| UserManagement.AddKeepsEmailsUnique | src/components/admin/UserManagement.tsx:47-57 | adding keeps emails unique |
| UserManagement.SecondAddRefused | src/components/admin/UserManagement.tsx:49-55 | after adding an email, adding it again is refused |
| UserManagement.RenameKeepsEmailsUnique | src/components/admin/UserManagement.tsx:124-136 | an accepted rename keeps emails unique |
| UserManagement.DeleteKeepsEmailsUnique | src/components/admin/UserManagement.tsx:98-100 | deleting keeps emails unique |
| UserManagement.AddedMemberLogsIn | src/components/admin/UserManagement.tsx:40-57 | an added member logs in with `CBD` and not with `THC` |
| UserManagement.AddedBoardMemberLogsIn | src/components/admin/UserManagement.tsx:40-57 | an added board member logs in as admin with `THC` and not with `CBD` |
| UserManagement.AddedIsFound | src/components/admin/UserManagement.tsx:57 | the lookup finds the appended credential |
| UserManagement.DeletedCannotLogIn | src/components/admin/UserManagement.tsx:98-100 | a deleted non-operator cannot log in with any password |
| MessageList.UserMessages | src/components/messaging/MessageList.tsx:39-41 | exactly the messages the current user sent or received |
| MessageList.MarkInboundRead | src/components/messaging/MessageList.tsx:43-50 | same length and order; messages to the current user become read, others are untouched |
| MessageList.LoadClearsHeaderBadge | src/components/messaging/MessageList.tsx:37-53 | after loading the header's message badge is zero |
| MessageList.OtherParty | src/components/messaging/MessageList.tsx:56-58 | the counterpart is the recipient of one's own message and the sender otherwise |
| MessageList.SortByTime | src/components/messaging/MessageList.tsx:60 | ascending by timestamp and a permutation of the input |
| MessageList.InsertAtTime | src/components/messaging/MessageList.tsx:60 | an inserted message goes in front of those of its own time; other times are untouched |
| MessageList.SortByTimeStable | src/components/messaging/MessageList.tsx:60 | the sort is stable: messages with equal timestamps keep their input order |
| MessageList.Conversation | src/components/messaging/MessageList.tsx:55-61 | sorted by time and a permutation of the messages between the pair |
| MessageList.ConversationIsThePair | src/components/messaging/MessageList.tsx:55-61 | a message is in the conversation iff it is between the user and the counterpart, either way |
| MessageList.UnreadFrom | src/components/messaging/MessageList.tsx:71-77 | the number of positions holding an unread message from that counterpart to the user; zero iff all of those are read |
| MessageList.ReloadShowsNothingUnread | src/components/messaging/MessageList.tsx:37-77 | on the stored messages after a load, no counterpart has unread messages for the user |
| MessageList.Distinct | src/components/messaging/MessageList.tsx:197-199 | the same addresses, each once, in the order of their first appearance |
| MessageList.OtherParties | src/components/messaging/MessageList.tsx:197-198 | the counterpart of each message, position by position |
| MessageList.Counterparts | src/components/messaging/MessageList.tsx:197-199 | each counterpart once, exactly the counterparts of the user's messages, and an earlier entry's first message comes before every message of a later entry |
| MessageList.Preview | src/components/messaging/MessageList.tsx:200-202 | none iff no message touches the counterpart, otherwise the first message in the list that does |
| MessageList.CounterpartHasPreview | src/components/messaging/MessageList.tsx:197-202 | every listed counterpart has a preview |
| MessageList.ReplyTo | src/components/messaging/MessageList.tsx:87-98 | the reply goes from the user to the other party of the selected message, unread |
| MessageList.ReplyWrite | src/components/messaging/MessageList.tsx:100-101 | the reply is appended and every stored message is kept in place |
| MessageList.ReplyAsWrittenDropsOthers | src/components/messaging/MessageList.tsx:100-101 | the write as the source has it loses a message between two other users; the corrected write keeps it |
| MessageList.Inbox.constructor | src/components/messaging/MessageList.tsx:18-20 | no messages, nothing selected, empty reply |
| MessageList.Inbox.LoadMessages | src/components/messaging/MessageList.tsx:37-53 | the list is the user's messages before marking, and the store has the inbound ones marked read |
| MessageList.Inbox.Open | src/components/messaging/MessageList.tsx:197-210 | clicking a counterpart selects its preview message |
| MessageList.Inbox.SendReplyAsWritten | src/components/messaging/MessageList.tsx:84-107 | ignored when nothing is selected or the reply is blank; otherwise the store is overwritten with the user's list plus the reply |
| MessageList.Inbox.SendReply | src/components/messaging/MessageList.tsx:84-107 | as above, but the reply is appended to the stored messages |
| MemberDirectory.EntryOf | src/components/messaging/MemberDirectory.tsx:22-31 | the name falls back to the email and the business name to ''; the avatar is the profile's, none without a profile |
| MemberDirectory.Entries | src/components/messaging/MemberDirectory.tsx:22-31 | one entry per credential in stored order |
| MemberDirectory.MikeEntry | src/components/messaging/MemberDirectory.tsx:34-43 | the board operator's entry, never admin-flagged: without a stored profile, name `Mike`, no business name and no avatar; with one, the profile's name (or `Mike` when empty), business name and avatar |
| MemberDirectory.Collected | src/components/messaging/MemberDirectory.tsx:20-54 | the credentials' entries, then the board operator only if no entry has his address, then the operator unless it is the one looking |
| MemberDirectory.SortByKey | src/components/messaging/MemberDirectory.tsx:58-60 | sorted by name (email when the name is empty) and a permutation |
| MemberDirectory.Directory | src/components/messaging/MemberDirectory.tsx:56-61 | sorted, and a permutation of the collected entries without the current user |
| MemberDirectory.DirectoryMembers | src/components/messaging/MemberDirectory.tsx:56-61 | an entry is listed iff it was collected and is not the current user |
| MemberDirectory.FixedEntries | src/components/messaging/MemberDirectory.tsx:33-54 | the board operator is added at most once and the operator whenever someone else looks |
| MemberDirectory.NewMessage | src/components/messaging/MemberDirectory.tsx:67-74 | the message goes from the current user to the selected member, unread |
| MemberDirectory.MessageNotif | src/components/messaging/MemberDirectory.tsx:81-92 | one unread message notification to the recipient with the sender's name |
| MemberDirectory.SendRaisesRecipientBadge | src/components/messaging/MemberDirectory.tsx:67-78 | sending raises the recipient's message badge by one and leaves everybody else's |
| MemberDirectory.Panel.constructor | src/components/messaging/MemberDirectory.tsx:14-62 | the list is the directory; nothing selected, empty draft |
| MemberDirectory.Panel.SendMessage | src/components/messaging/MemberDirectory.tsx:64-96 | ignored without a selection or with a blank text; otherwise the message is appended, the notification put in front and the form reset |
| ProfileArea.DefaultProfile | src/components/profile/ProfileArea.tsx:29-37 | empty fields with the placeholder phone and the given email |
| ProfileArea.LoadedProfile | src/components/profile/ProfileArea.tsx:46-58 | the stored profile, else the default with the user's email |
| ProfileArea.UnsavedProfileShowsEmail | src/components/profile/ProfileArea.tsx:54-58 | without a stored profile the page shows the user's email, the placeholder phone, and the email as name |
| ProfileArea.StampSenders | src/components/profile/ProfileArea.tsx:102-115 | same length and order; messages sent by the user get the new sender snapshot, others are untouched |
| ProfileArea.StampKeepsUnreadBadges | src/components/profile/ProfileArea.tsx:102-115 | re-stamping changes nobody's unread-message badge |
| ProfileArea.SaveAgreesWithNewPosts | src/components/profile/ProfileArea.tsx:82 | after a save, new feed posts and notifications use the saved display name |
| ProfileArea.NewPostHeadsOwnPosts | src/components/profile/ProfileArea.tsx:164-168 | a new post leads the user's own post list |
| ProfileArea.Editor.constructor | src/components/profile/ProfileArea.tsx:29-44 | the default profile with the session email, not editing, no posts, no notice |
| ProfileArea.Editor.Load | src/components/profile/ProfileArea.tsx:46-65 | with a session email the loaded profile and exactly the user's posts; without one nothing changes |
| ProfileArea.Editor.EditPhone | src/components/profile/ProfileArea.tsx:242-247 | the edited phone becomes the formatted input |
| ProfileArea.Editor.Save | src/components/profile/ProfileArea.tsx:77-129 | stores the profile under the user's key, re-stamps posts and sent messages, ends editing |
| ProfileArea.Editor.NewPost | src/components/profile/ProfileArea.tsx:145-178 | the page's post is prepended to the stored posts and the user's list |
| UserProfileView.Placeholder | src/components/profile/UserProfileView.tsx:36-44 | the email as name, all else empty |
| UserProfileView.ViewedProfile | src/components/profile/UserProfileView.tsx:49-63 | the shown email is the viewed one; a missing name falls back to it; other fields are the stored ones |
| UserProfileView.ViewAgreesWithDirectory | src/components/profile/UserProfileView.tsx:51-63 | the page and the directory show the same name and business name |
| UserProfileView.ReactAllPostsBy | src/components/profile/UserProfileView.tsx:72-104 | bumping the page's list equals re-filtering the bumped store |
| UserProfileView.Viewer.constructor | src/components/profile/UserProfileView.tsx:36-46 | the placeholder profile, no posts, loading |
| UserProfileView.Viewer.Load | src/components/profile/UserProfileView.tsx:49-70 | the stored profile when there is one, and exactly the viewed member's posts in order |
| UserProfileView.Viewer.React | src/components/profile/UserProfileView.tsx:72-138 | one's own post: nothing; otherwise store and page list are bumped and the author notified |
| CreatePost.FallbackPreview | src/components/feed/CreatePost.tsx:70-78 | title and url are the link, description and image are '' |
| CreatePost.PreviewOf | src/components/feed/CreatePost.tsx:54-82 | the lookup's fields when found, the fallback record otherwise; always the link's url |
| CreatePost.Attachment | src/components/feed/CreatePost.tsx:86-90 | nothing iff the input is blank; otherwise the schemed link and its preview |
| CreatePost.EnabledMeansNotBlank | src/components/feed/CreatePost.tsx:308 | an enabled Post button means the draft has a non-space character |
| CreatePost.Composer.constructor | src/components/feed/CreatePost.tsx:16-24 | empty draft, no attachments, nothing open or in flight |
| CreatePost.Composer.UploadImage | src/components/feed/CreatePost.tsx:28-39 | the image is the file's data URL and the upload is over |
| CreatePost.Composer.UploadVideo | src/components/feed/CreatePost.tsx:41-52 | the video is the file's data URL and the upload is over |
| CreatePost.Composer.OpenLinkInput | src/components/feed/CreatePost.tsx:298 | the link input opens only while no preview is attached |
| CreatePost.Composer.LinkSubmit | src/components/feed/CreatePost.tsx:84-96 | blank input changes nothing; otherwise link and preview are set and the input cleared and closed |
| CreatePost.Composer.RemoveImage | src/components/feed/CreatePost.tsx:115-120 | the image is gone |
| CreatePost.Composer.RemoveVideo | src/components/feed/CreatePost.tsx:122-127 | the video is gone |
| CreatePost.Composer.RemoveLink | src/components/feed/CreatePost.tsx:129-132 | link and preview are gone |
| CreatePost.Composer.Submit | src/components/feed/CreatePost.tsx:98-113 | a blank draft posts nothing; otherwise the untrimmed draft with its attachments is posted and all five fields reset |
| Text.Utf16Length | src/components/auth/ChangePassword.tsx:24 | JavaScript's length: between the number of characters and twice it; exactly it when no character is above U+FFFF, twice it when all are |
| ChangePassword.Validate | src/components/auth/ChangePassword.tsx:19-27 | accepted iff the fields agree and are at least 8 UTF-16 code units long; a mismatch is reported before the length |
| ChangePassword.AcceptedIsNoPassphrase | src/components/auth/ChangePassword.tsx:24-27 | an accepted password is neither empty nor a shared passphrase |
| ChangePassword.FourAstralCharsAccepted | src/components/auth/ChangePassword.tsx:24 | four emoji above U+FFFF are eight code units and pass the length check |
| ChangePassword.SevenBmpCharsRejected | src/components/auth/ChangePassword.tsx:24 | seven characters of the Basic Multilingual Plane are too short |
| ChangePassword.MarkChanged | src/components/auth/ChangePassword.tsx:35-40 | same length and order; only the current user's credentials are flagged as changed |
| ChangePassword.MarkChangedKeepsLogin | src/components/auth/ChangePassword.tsx:35-40 | flagging changes no login outcome |
| ChangePassword.ChangedPasswordLogsIn | src/components/auth/ChangePassword.tsx:17-47 | after a successful change the user, operator addresses included, logs in with the new password as a non-admin |
| ChangePassword.Form.constructor | src/components/auth/ChangePassword.tsx:10-15 | empty fields, no error, not loading |
| ChangePassword.Form.Submit | src/components/auth/ChangePassword.tsx:17-47 | a rejected input shows its message and writes nothing; otherwise the password is set and the credential flagged |

## Left out

- Timers and events: the `setInterval` polling in Header, MessageList and ProfileArea, and the `window` events `newPost`, `postsUpdate` and `profileUpdate`, are not modelled. Each handler is one atomic step over the store. Races between components that hold stale snapshots are not modelled.
- Feed.React, Feed.AddComment, Feed.DeletePost and Feed.WarnUser work on the stored posts. The source works on the component's in-memory copy, which the polling keeps equal to the store.
- Feed.React, Feed.AddComment, Feed.NewPost, MemberDirectory.Panel.SendMessage and UserProfileView.Viewer.React take the current email as a non-null `Email`. A logged-out actor (`null`) is not modelled.
- Feed.MapReact and Feed.MapComment: the source writes the notification list once per matching post inside `map`. The model collects the new notifications and puts them in front in one write. The result is the same.
- Feed.CommentAll: a post without a `comments` array is not modelled. Every post carries a sequence, so the `|| []` fallback is moot.
- Feed.Bump: the `|| 0` counter fallback of the profile page is not modelled. Counters are always present.
- The link-preview `fetch` is not modelled. Its outcome is the `CreatePost.Lookup` parameter.
- `FileReader` uploads are not modelled. Their data URL is a parameter.
- The composer's intermediate loading flag is set and cleared in one step.
- MemberDirectory.StrLeq: `localeCompare` is modelled as lexicographic order on Unicode code points. This is neither the locale's collation nor UTF-16 code-unit order; the two differ when a character above U+FFFF meets one between U+E000 and U+FFFF. The stability of the sort is not stated.
- `JSON.parse` and `JSON.stringify` are not modelled. The store holds typed records. The `try`/`catch` around them is not modelled.
- ChangePassword.Form.Submit: the failure path of the password callback is not modelled. The header's callback cannot fail on the typed store.
- The session email and token are one `Session` value, written and removed together. A token without an email is not modelled.
- App.Shell.Login: `onInteraction` and view switching are not modelled.
- Modal toggles, click-outside listeners, the mobile menu and all rendering are not modelled.
- Icons are an enumeration, not emoji strings.
- `Date.now()` ids and ISO or locale timestamps are parameters. Timestamps are integers.
- The `.trim()` emptiness tests of the handlers are decided with `Text.IsBlank`. `Text.TrimEmptyIffBlank` proves the two agree.
- ProfileArea.Editor.constructor: the module-level default profile reads the email once when the module loads. The model reads it when the page is created.
- UserProfileView.Viewer: the viewed email is fixed for the life of the page.

## Findings

| source | as written | input that shows it | evidently intended | confidence | as-written member | corrected member |
|---|---|---|---|---|---|---|
| src/components/messaging/MessageList.tsx:100-101 | a reply overwrites `ccsba_messages` with the inbox's in-memory list plus the reply. The list holds only the user's own messages, taken before they were marked read, so every message between other users is lost and the read flags are reverted | stored `[b@x→c@x "hi", b@x→a@x "hello"]`, current user `a@x` replies to the second; the write drops `b@x→c@x` | append the reply to the stored messages and keep every other message | not executed | MessageList.ReplyAsWrittenDropsOthers | MessageList.ReplyWrite |
