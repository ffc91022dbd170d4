# DevConnect comment node, sign-up form and community feed, in Dafny

DevConnect is a social-posting web client whose data, authentication and
queries live in a hosted backend. Three pieces of its own logic are modelled
here and proved against their specifications:

- **The comment node** (`CommentItem`). One node of a post's comment thread.
  The pure part is the login guard of `createReply` and the row a reply
  inserts (`post_id`, `parent_comment_id` = this comment's id, the untrimmed
  text, `user_id`, the author, the avatar or null). It also covers the author
  fallback `user_name || full_name || email || 'Anonymous'` and the rule that
  shows the replies or a "N reply/replies" label. The stateful part is the
  class `CommentController`. Its fields are the node's `showReply`,
  `replyText` and `isCollapsed`, the mutation's `pending` flag and last error,
  and a ghost log of the inserts and invalidations it issued. A reply is two
  steps: `SubmitReply` issues the insert and `Settle` receives the backend's
  answer. `Receive` gives the node a refetched comment under the same key
  and leaves the rest of its state as it was.
- **The sign-up page** (`RegisterPage`). The password checks run in the
  source's order: mismatch first, then length at least 6. A backend result
  maps to an error or a success message. The class `RegisterForm` holds
  `error`, `success` and `loading` and a ghost log of the sign-up calls.
  `BeginEmailSignup` runs up to the call; `FinishEmailSignup` takes the
  outcome and resets `loading`, as the `finally` does. `GithubSignup` clears
  the error and sets it only when the call throws.
- **The community feed** (`CommunityDisplay`). The view is a function of the
  query state: loading wins over an error, and an error wins over the list.
  The heading is the first post's community name, lowercased, with each
  white-space character replaced by `_`, or `community_feed` when there is no
  name.

`Strings` gives the JavaScript string operations these use a meaning over
ASCII. It covers truthiness, `trim`, `toLowerCase`, `replace(/\s/g, …)`,
`includes`, and the decimal text of a number.

The GitHub handler writes only `error`, never `success`. So a GitHub sign-up
that fails can leave both messages set. This happens when it fails while an
e-mail sign-up is outstanding that then succeeds. It also happens when it
fails after an e-mail sign-up has succeeded. `RegisterPage.BothMessagesScenarios`
walks through both cases. `RegisterPage.EmailSignup` proves that at most one
message is set only for a submission with nothing in between its steps.

`src/utils/communityApi.ts:15` embeds the community under `Communities`,
while the component reads `communities`. The model takes the post record in
the shape the component reads it.

## Model

| member | source | states |
|---|---|---|
| Strings.TrimStart | src/components/CommentItem.tsx:70 | the result is a suffix of the input, everything dropped is white space, and the result does not start with white space |
| Strings.TrimEnd | src/components/CommentItem.tsx:70 | the result is a prefix of the input, everything dropped is white space, and the result does not end with white space |
| Strings.BlankIffAllWhitespace | src/components/CommentItem.tsx:70 | `!text.trim()` holds exactly when every character of the text is white space |
| Strings.IsBlankText | src/components/CommentItem.tsx:70 | evaluating `!text.trim()` gives true exactly when every character of the text is white space |
| Strings.Contains | src/pages/RegisterPage.tsx:41 | `includes` is true exactly when the fragment occurs at some position of the message |
| Strings.DecimalString | src/components/CommentItem.tsx:166 | a count renders as a non-empty string of decimal digits with no leading zero |
| Strings.DecimalRoundTrip | src/components/CommentItem.tsx:166 | reading the rendered digits back gives the count |
| Strings.DecimalStringInjective | src/components/CommentItem.tsx:166 | two counts render the same exactly when they are equal |
| CommentItem.NullIfEmpty | src/components/CommentItem.tsx:34 | the fallback to null gives null exactly for a missing or empty value and keeps any other value |
| CommentItem.FirstNonEmpty | src/components/CommentItem.tsx:50 | a chain of JavaScript "or" ending in a fallback gives the first truthy candidate, or the fallback when none is truthy; it is never empty when the fallback is not |
| CommentItem.ResolveAuthorOrder | src/components/CommentItem.tsx:50 | the author is never empty; `user_name` wins, then `full_name`, then the e-mail, each only when every earlier one is missing or empty; otherwise, or with no user, it is "Anonymous" |
| CommentItem.ResolveAvatar | src/components/CommentItem.tsx:51 | the avatar is the user's `avatar_url` when present and non-empty, else null |
| CommentItem.CreateReply | src/components/CommentItem.tsx:16-35 | the guard fails, with "You must be logged in to reply.", exactly when the user id or the author is missing or empty; otherwise the row carries the post, the content, the parent id, the user id, the author, and the avatar or null |
| CommentItem.ReplyRequestShape | src/components/CommentItem.tsx:48-60 | since the author falls back to "Anonymous", the guard fails exactly when there is no user or the user id is empty; otherwise the row replies to this comment on this post with the submitted text, a non-empty author and a null-or-non-empty avatar |
| CommentItem.ReplyCountLabelDistinct | src/components/CommentItem.tsx:166 | the collapsed label determines the count: two counts give the same label exactly when equal, and the label ends in " reply" exactly when the count is 1 |
| CommentItem.ShowReplies | src/components/CommentItem.tsx:149-168 | nothing is shown without children; the children are shown in order exactly when there are some and the node is expanded; a collapsed node with children shows the count label |
| CommentItem.InvalidationsBounded | src/components/CommentItem.tsx:61-65 | when each invalidation follows an insert, invalidations never outnumber inserts, and an outstanding insert makes them strictly fewer |
| CommentItem.CommentController.constructor | src/components/CommentItem.tsx:41-43 | a node starts with the form hidden, an empty draft, expanded, nothing outstanding, no error and nothing issued |
| CommentItem.CommentController.Receive | src/components/CommentItem.tsx:150-156 | a re-render under the same key (the comment's id) replaces the node's comment, and with it its replies, while the node keeps its form, draft, collapse state, outstanding request and log |
| CommentItem.CommentController.ToggleCollapse | src/components/CommentItem.tsx:82-84 | the collapse button, rendered only for a node with replies, flips this node's `isCollapsed` and may change no other field of this node or of any node outside its subtree |
| CommentItem.CommentController.ToggleReply | src/components/CommentItem.tsx:110-111 | the Reply/Cancel button flips `showReply` and changes nothing else |
| CommentItem.CommentController.CancelReply | src/components/CommentItem.tsx:129-131 | the form's Cancel closes the form and keeps the draft |
| CommentItem.CommentController.EditReply | src/components/CommentItem.tsx:123 | typing sets the draft and nothing else |
| CommentItem.CommentController.SubmitReply | src/components/CommentItem.tsx:68-72 | blank text issues nothing and changes nothing; otherwise a failing guard records its error without an insert, and a passing guard issues exactly one insert of the request's row and marks it outstanding; the form and draft never change here; the log invariant is kept |
| CommentItem.CommentController.Settle | src/components/CommentItem.tsx:61-65 | success issues exactly one invalidation keyed ("Comments", postId), clears the draft, closes the form and clears the error; failure keeps the draft and the open form and records the message; either way nothing stays outstanding |
| CommentItem.CommentController.Form | src/components/CommentItem.tsx:119-146 | the form shows exactly when `showReply` is set and a user is present; it shows the draft, disables submit and labels it "Posting..." while outstanding, "Reply" otherwise, and shows "Error: " and the message exactly after a failure |
| RegisterPage.ValidatePasswords | src/pages/RegisterPage.tsx:23-31 | validation passes exactly when the passwords match and are at least 6 long; a mismatch gives "Passwords do not match" whatever the lengths; matching passwords that are too short give the length message |
| RegisterPage.RejectionError | src/pages/RegisterPage.tsx:40-45 | a message containing "already registered" becomes the fixed sign-in hint; any other message is shown verbatim; the error is empty only for an empty message |
| RegisterPage.OutcomeMessages | src/pages/RegisterPage.tsx:40-52 | only a sign-up without error sets the success message; a rejection gives the mapped message, a throw gives "An unexpected error occurred"; never both messages |
| RegisterPage.RegisterForm.constructor | src/pages/RegisterPage.tsx:8-14 | every field starts empty, `loading` false, no call made |
| RegisterPage.RegisterForm.BeginEmailSignup | src/pages/RegisterPage.tsx:18-36 | both messages are cleared first; a failed check sets its message, leaves `loading` false and makes no call; otherwise `loading` is set and exactly one call with the form's e-mail, password and full name is made; submission needs `loading` false because the button is disabled while loading (line 193) |
| RegisterPage.RegisterForm.FinishEmailSignup | src/pages/RegisterPage.tsx:36-55 | the outcome sets only the message it maps to, and `loading` is false after every outcome, a throw included |
| RegisterPage.RegisterForm.GithubSignup | src/pages/RegisterPage.tsx:58-65 | the error is cleared, and is "Failed to sign up with GitHub" exactly when the call throws |
| RegisterPage.EmailSignup | src/pages/RegisterPage.tsx:18-56 | a whole uninterrupted submission changes only the messages, `loading` and the call log; it makes exactly one call, with the form's e-mail, password and full name, when validation passes and none otherwise; it ends with the validation message or the outcome's messages, leaves `loading` false, and never sets both messages |
| CommunityDisplay.CommunityName | src/components/CommunityDisplay.tsx:40 | the name comes from the first post only and is absent for a missing or empty list or a first post without community |
| CommunityDisplay.SlugShape | src/components/CommunityDisplay.tsx:47 | the slug has the name's length; each white-space character becomes `_` on its own and every other character is lower-cased |
| CommunityDisplay.SlugIsClean | src/components/CommunityDisplay.tsx:47 | a slug contains no white space and no upper-case letter |
| CommunityDisplay.SlugIdempotent | src/components/CommunityDisplay.tsx:47 | making a slug of a slug changes nothing |
| CommunityDisplay.HeadingIsClean | src/components/CommunityDisplay.tsx:47 | the heading is never empty, never holds white space, and has the name's length when there is a name |
| CommunityDisplay.Render | src/components/CommunityDisplay.tsx:30-64 | loading wins over an error, an error shows its message, otherwise the list view with the heading; it shows the posts in order exactly when there is at least one, else "No posts found in this community yet." |
| CommunityDisplay.HeadingFromFirstPost | src/components/CommunityDisplay.tsx:40-47 | only the first post decides the heading; a first post without a name, an empty list and a missing list all give "community_feed" |

## Left out

- Backend calls: the Supabase insert, `signUpWithEmail`, `signInWithGithub` and the feed fetches are calls to a hosted service. Only their outcome is modelled, as a parameter.
- React Query: caching, `useMutation` and `useQuery` are library internals. An invalidation is an entry keyed by the post id in the node's ghost log.
- Async timing: each reply or sign-up is one request step and one outcome step. Results that arrive after the node or page is gone are not modelled.
- CommentItem.CommentController.ToggleCollapse: collapsing a node unmounts its descendant nodes, so their form, draft, collapse state and reply request are discarded, and expanding it mounts them again with their initial values. The model keeps one independent controller per node with no parent–child link, so it does not capture this loss.
- CommentItem.CommentController.SubmitReply: a reply rejected by the login guard fails within the submit step, without a separate outcome step.
- The comment-tree builder: `CommentSection` is not part of this model. The node consumes `children` already nested by its caller.
- Markup and presentation: JSX, CSS classes, icons and the injected `formatTime` formatter.
- The redirect to `/login` two seconds after a successful sign-up: a timer and navigation side effect.
- `console.error` logging of sign-up failures.
- The sign-up inputs' `onChange` bindings: the model assigns the form's fields directly.
- Routing glue: the route table in `src/App.tsx` and `Number(id)` in `src/pages/PostPage.tsx`.
- `src/pages/ProfilePage.tsx`: its only logic is a one-line fallback and a date-formatting library call.
- Unicode: `toLowerCase`, the `\s` class and `trim` are modelled over ASCII white space (space, tab, LF, VT, FF, CR) and ASCII case mapping. For non-ASCII names `toLowerCase` can change the length.
- RegisterPage.ValidatePasswords: the length is counted in characters, while JavaScript counts UTF-16 code units. The two differ only for characters outside the Basic Multilingual Plane.
