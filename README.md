# yatube posts: a verified model

yatube is a small blogging platform. Signed-in users publish posts, optionally
in a group and with an image. They comment on posts and follow other authors,
whose posts then make up their feed. This project models the `posts`
application of the repository in Dafny:

- the five tables (users, groups, posts, comments, follow edges);
- their default orderings, their string forms and the deletion policies of
  their foreign keys;
- the two forms and the comment form's minimum-length rule;
- the paginator that every listing goes through;
- the request handlers.

## How the model is laid out

| file | module | models |
|---|---|---|
| `wrappers.dfy` | `Wrappers` | `Option` and `Result` |
| `seqs.dfy` | `Seqs` | table operations: selection (`Filter`, and the loop `Retain`), rewriting every row (`Map`, and the loop `Apply`), key sets, stable descending sort |
| `models.dfy` | `Models` | `yatube/posts/models.py`: rows, `__str__`, `Meta.ordering`, `on_delete`, follow edges and the follow feed's join |
| `integrity.dfy` | `Integrity` | unique keys, unique slugs, no dangling foreign key; preservation by every write and deletion |
| `forms.dfy` | `Forms` | `yatube/posts/forms.py`: `PostForm` and `CommentForm`, their columns, the text field's cleaning (strip, null character, required), `clean_text`, `save` |
| `pagination.dfy` | `Pagination` | `yatube/posts/utils.py` `get_paginator` and the framework's `Paginator.get_page` |
| `store.dfy` | `Store` | `yatube/posts/views.py`: the `Blog` class, whose fields are the tables. The handlers that write are methods; the handlers that only read are functions of the fields. |
| `scenarios.dfy` | `Scenarios` | the repository's follow, edit and comment tests, replayed on the model |

Modelling choices:

- Each table is a `seq` in primary-key order. The default ordering
  (`-pub_date` for posts, `-created` for comments) is applied when a listing
  is read. It uses a stable sort, so rows with equal dates keep table order.
  The database leaves that order unspecified.
- `Follow` has no uniqueness constraint, so the follow table may hold the
  same edge twice. The number of `(u, a)` edges is `EdgeCount`, the
  multiplicity of `Follow(u, a)`.
- `get_or_create` raises when it finds two or more matching rows. That is
  modelled as `ServerError`, with nothing changed.
- The follow feed `Post.objects.filter(author__following__user=u)` is a join.
  Each post appears once per matching follow row (`FeedRows`). With no
  duplicate edges, this is exactly the plain selection
  (`FeedRowsWithoutDuplicates`). The handlers preserve that condition.
  `ProfileFollow`, `ProfileUnfollow` and `DeleteUser` each ensure it, and the
  other handlers leave the follow table as it is.
- The clock is a `now` parameter.
- The signed-in caller is passed as the `User` row the session stands for.
  `POSTS_PER_PAGE` and `NUM_OF_LETTERS` are the blog's constants
  `postsPerPage` (positive) and `numOfLetters`.
- A submitted text goes through the framework's text field first. It is
  stripped of surrounding whitespace (the characters of Python's
  `str.isspace`). A text holding a null character is refused, and so is one
  that is empty after stripping. The stripped text is what `clean_text`
  sees and what is stored.
- What the browser sends for the image is an `ImageInput`: no file, the
  "clear" box ticked, or a new file. Saving keeps the post's current image
  when no file is sent (`CleanedImage`, the image field's `clean(data,
  initial)`). The framework's image check is an `imageValid` argument: the
  file decodes as an image, and is not sent together with a ticked "clear"
  box. A group choice is valid when it names an existing group.
- The `page` query parameter arrives already read as a
  `PageQuery = Missing | NotANumber | Number(n)`.

Behaviour of the code that the model keeps, though a reader might expect
otherwise:

- `add_comment` (`yatube/posts/views.py:106-116`) redirects to the post
  page whether or not the comment form is valid. It never re-renders the
  form.
- A page number below 1 gives the last page, not the first. The framework's
  `get_page` maps every out-of-range number to the last page.
- `profile` has no `login_required`, yet it
  (`yatube/posts/views.py:38-39`) filters `Follow` by `request.user`. For an
  anonymous visitor that is the framework's anonymous-user object, which is
  not a row of the user table. With Django 2.2, which the migrations name,
  that filter raises `TypeError`, so the request fails with HTTP 500. The
  model gives `Err(AnonymousViewer)` there. The repository's paginator test
  (`yatube/posts/tests/test_views.py:207-248`) requests the profile without
  signing in and expects full pages, so on the code as written those
  requests most likely raise; see "## Findings".

## Model

| member | source | states |
|---|---|---|
| Models.GroupStr | yatube/posts/models.py:12-13 | `str(group)` is the group's title |
| Models.PostStr | yatube/posts/models.py:47-48 | `str(post)` has the length and the characters of the whole text |
| Models.PostStrIsNotTruncated | yatube/posts/models.py:47-48 | `str(post)` equals the text's first `n` characters exactly when the text has at most `n` characters: nothing is cut off |
| Models.PostsNewestFirst | yatube/posts/models.py:50-51 | posts ordered by descending publication date, a permutation of the input |
| Models.CommentsNewestFirst | yatube/posts/models.py:77-78 | comments ordered by descending creation date, a permutation of the input |
| Models.PostIdsBy | yatube/posts/models.py:25-30 | every post by the user has its id in the set of posts that CASCADE removes with the user |
| Models.DetachKeepsPost | yatube/posts/models.py:31-39 | SET_NULL on `Post.group` clears the group of that group's posts only and touches no other field |
| Models.FollowEdges | yatube/posts/views.py:132-133 | following oneself changes nothing; otherwise exactly one `(u, a)` edge exists after `get_or_create` if none did before, the count is kept if some did, and no other edge changes |
| Models.SelfFollowStoresNothing | yatube/posts/views.py:132 | a self-follow leaves the table and the self-edge count as they were |
| Models.FollowIdempotent | yatube/posts/views.py:133 | following twice gives the same table as following once |
| Models.FollowGivesOneEdge | yatube/posts/views.py:133 | from no edge, one follow, or two, leaves exactly one edge |
| Models.FollowKeepsNoDuplicates | yatube/posts/views.py:133 | following never stores a second copy of an edge |
| Models.UnfollowEdges | yatube/posts/views.py:140 | no edge from the caller to any user with that username survives; every other row survives |
| Models.UnfollowRemovesAll | yatube/posts/views.py:140 | however many `(u, a)` edges were stored, none is left, and every other edge keeps its count |
| Models.SelectionKeepsNoDuplicates | yatube/posts/models.py:80-94 | deleting follow rows, by unfollowing or by a cascade, leaves no row stored twice when none was |
| Models.UnfollowWithoutEdgeIsNoop | yatube/posts/views.py:137-141 | with no edge, or no user of that name, unfollowing leaves the table unchanged |
| Models.FollowThenUnfollow | yatube/posts/views.py:128-141 | follow then unfollow leaves no edge between the two users |
| Models.Repeat | yatube/posts/views.py:121 | `n` copies of one post: each row of the join for one post |
| Models.FeedRows | yatube/posts/views.py:121 | the join holds a post exactly when it is stored and an edge runs from the user to its author |
| Models.FeedRowsWithoutDuplicates | yatube/posts/views.py:121 | without duplicate edges the join is the selection of followed authors' posts, each once, in table order |
| Integrity.Consistent | yatube/posts/models.py:7-94 | primary keys are unique, `Group.slug` is unique, usernames are unique (the platform user table's own constraint), keys stay below the next key handed out, and every foreign key names an existing row |
| Integrity.UserDeletionKeepsConsistency | yatube/posts/models.py:25-30 | CASCADE on `Post.author`, `Comment.author`, `Comment.post`, `Follow.user` and `Follow.author` leaves unique keys and no dangling reference |
| Integrity.PostDeletionKeepsConsistency | yatube/posts/models.py:55-60 | CASCADE on `Comment.post` leaves unique keys and no dangling reference |
| Integrity.GroupDeletionKeepsConsistency | yatube/posts/models.py:31-39 | SET_NULL on `Post.group` keeps every post and every key, and leaves no dangling reference |
| Integrity.PostRewriteKeepsConsistency | yatube/posts/views.py:92-93 | rewriting posts without changing ids or authors, choosing only existing groups, keeps the post keys and integrity |
| Integrity.PostAppendKeepsConsistency | yatube/posts/views.py:75-77 | a new post with a fresh key, an existing author and an existing or no group keeps integrity |
| Integrity.CommentAppendKeepsConsistency | yatube/posts/views.py:112-115 | a new comment with a fresh key on an existing post by an existing user keeps integrity |
| Integrity.GroupAppendKeepsConsistency | yatube/posts/models.py:9 | a new group whose slug is not taken keeps slugs unique |
| Forms.PostFieldsDeterminePost | yatube/posts/models.py:16-45 | the six columns are the whole post row: two posts that agree in every column are equal |
| Forms.CommentFieldsDetermineComment | yatube/posts/models.py:54-75 | the five columns are the whole comment row: two comments that agree in every column are equal |
| Forms.SavePost | yatube/posts/forms.py:10 | saving the post form rewrites no column outside its `fields` (text, group, image); text and group take the cleaned input, and the image is `CleanedImage` of what was sent and the current image |
| Forms.SavePostTwice | yatube/posts/forms.py:10 | saving the same post form onto its own result changes nothing |
| Forms.SaveComment | yatube/posts/forms.py:26 | saving the comment form rewrites no column but the text |
| Forms.CleanedImage | yatube/posts/models.py:40-45 | no file sent keeps the current image, a ticked "clear" box removes it, a new file replaces it |
| Forms.PostFormValid | yatube/posts/views.py:73 | `PostForm.is_valid()`: the text survives the field's cleaning, the image passes its check, and the group, if any, exists |
| Forms.CommentFormValid | yatube/posts/views.py:111 | `CommentForm.is_valid()`: the form is bound and `CleanComment` accepts the text |
| Forms.IsSpace | yatube/posts/models.py:17-20 | exactly the characters of Python's `str.isspace`, which the text field strips |
| Forms.Strip | yatube/posts/models.py:17-20 | the text field's stripping: the result starts and ends with a non-space, holds only characters of the input, and is empty exactly when the input is all whitespace |
| Forms.StripKeepsTrimmed | yatube/posts/models.py:17-20 | a text with no whitespace at either end is stored as written |
| Forms.StripIdempotent | yatube/posts/models.py:17-20 | stripping a stripped text changes nothing |
| Forms.StripKeepsNonSpace | yatube/posts/models.py:17-20 | every non-space character of the input survives stripping |
| Forms.TrimStartSkipsPadding | yatube/posts/models.py:17-20 | leading whitespace is dropped whatever follows |
| Forms.CleanTextField | yatube/posts/models.py:17-20 | the required text field accepts exactly a text that is non-empty after stripping and holds no null character, and yields the stripped text |
| Forms.CleanText | yatube/posts/forms.py:35-41 | a cleaned text is refused exactly when it has at most `NUM_OF_LETTERS` characters; an accepted text comes back unchanged |
| Forms.CleanComment | yatube/posts/forms.py:23-41 | the comment form accepts exactly a text without a null character whose stripped form is longer than `NUM_OF_LETTERS`, and yields the stripped text |
| Forms.CleanTextBoundary | yatube/posts/forms.py:38 | the bound is inclusive: exactly `NUM_OF_LETTERS` characters is refused, one more is accepted |
| Forms.CleanTextDependsOnLength | yatube/posts/forms.py:35-41 | two cleaned texts of equal length get the same verdict from `clean_text` |
| Forms.CommentPaddingDoesNotCount | yatube/posts/forms.py:35-41 | whitespace in front of a comment never changes the comment form's verdict or the stored text |
| Forms.PostFormHasNoLengthRule | yatube/posts/forms.py:7-20 | any two texts the text field accepts, a one-letter text among them, get the same verdict from the post form |
| Pagination.NumPages | yatube/posts/utils.py:6 | the least number of pages, at least one, that holds all items |
| Pagination.ResolvePage | yatube/posts/utils.py:7-8 | a missing or non-numeric page gives page 1, a number in range gives that page, any other number gives the last page |
| Pagination.PageSlice | yatube/posts/utils.py:8 | a page holds at most the page size, and every page before the last is full |
| Pagination.GetPage | yatube/posts/utils.py:5-9 | the page served has the resolved number, the page count and that page's slice |
| Pagination.PageSizeBound | yatube/posts/utils.py:6 | no page holds more than the page size |
| Pagination.MissingGivesFirstPage | yatube/posts/utils.py:7-8 | no `page` parameter serves page 1, the listing's first items |
| Pagination.OneItemOverflow | yatube/posts/utils.py:5-9 | with page size + 1 items there are two pages; the first is full and the second holds the last item |
| Pagination.PagesConcatenateToListing | yatube/posts/utils.py:5-9 | the pages in order concatenate back to the listing |
| Pagination.PageOfSortedIsSorted | yatube/posts/utils.py:5-9 | a page of a newest-first listing is newest-first |
| Store.EditPost | yatube/posts/views.py:92-93 | an edit changes no column outside the form's fields in any post; every other post stays; the edited post takes the stripped text and the group, and keeps its image unless a new file is sent or the image is cleared |
| Store.CommentsOf | yatube/posts/views.py:56 | the comments on the post, all of them, each as often as stored, newest first |
| Store.Listing | yatube/posts/utils.py:5-9 | the page served is `GetPage` of the newest-first listing for the query: at most the page size, only listed posts, newest first |
| Store.ListingFitsOnePage | yatube/posts/utils.py:5-9 | a listing no longer than a page has one page, and without a page parameter it shows every post, each as often as stored |
| Store.ListingOverflow | yatube/posts/utils.py:5-9 | with one post more than a page, the first page is full and the second holds only the oldest post |
| Store.ListingPagesCoverAll | yatube/posts/utils.py:5-9 | the pages of a listing together hold each post exactly as often as stored, newest first |
| Store.Blog.constructor | yatube/posts/models.py:4 | a blog over the platform's user table starts with empty tables and satisfies integrity |
| Store.Blog.FindUser | yatube/posts/views.py:36 | the user with that username, or none if no user has it |
| Store.Blog.FindGroup | yatube/posts/views.py:24 | the group with that slug, or none if no group has it |
| Store.Blog.FindPost | yatube/posts/views.py:51 | the post with that id, or none exactly when no post has it |
| Store.Blog.Index | yatube/posts/views.py:11-19 | the `Listing` page of all posts for the query |
| Store.Blog.GroupPosts | yatube/posts/views.py:22-31 | not found exactly when no group has the slug; otherwise that group and the `Listing` page of exactly its posts |
| Store.Blog.Profile | yatube/posts/views.py:34-46 | not found exactly when no user has the username; otherwise an anonymous viewer makes the follow lookup fail; otherwise that user, the `Listing` page of exactly their posts, and `following` true exactly when the viewer has an edge to them |
| Store.Blog.PostDetail | yatube/posts/views.py:49-59 | not found exactly when no post has the id; otherwise that post and its comments newest first |
| Store.Blog.FollowFeed | yatube/posts/views.py:121 | a post is in the feed exactly when it is stored and the user follows its author; newest first |
| Store.Blog.FollowIndex | yatube/posts/views.py:119-125 | the page served is `GetPage` of the whole follow feed: at most the page size, only posts of followed authors, newest first |
| Store.Blog.FollowFeedExactlyOnce | yatube/posts/views.py:121 | without duplicate edges the feed holds each post of a followed author exactly once |
| Store.Blog.ListingsOverflowToSecondPage | yatube/posts/tests/test_views.py:207-248 | with one post more than a page, all in one group and by one author, the index and the group page show a full first page and a one-post second page; so does the corrected profile `ProfileForAnyViewer`, for every viewer including the anonymous one the test uses (the profile as written serves this only to a signed-in viewer) |
| Store.Blog.ProfileForAnyViewer | yatube/posts/views.py:34-46 | the profile as the paginator test expects it: not found exactly when no user has the username; otherwise that user, the `Listing` page of exactly their posts, and `following` true exactly when the viewer is signed in and has an edge to them |
| Store.Blog.SignedInProfilesAgree | yatube/posts/views.py:34-46 | for a signed-in viewer the corrected profile and `Profile` give the same page, or both not found |
| Store.Blog.AnonymousProfileRequestsFail | yatube/posts/views.py:38-39 | for an existing author, the paginator test's anonymous requests for page 1 and page 2 both fail in the follow lookup on the code as written |
| Store.Blog.PostCreate | yatube/posts/views.py:62-79 | a valid form appends exactly one post by the caller with the stripped text, dated now, and redirects to the caller's profile; an invalid one changes nothing and shows the form; integrity is kept |
| Store.Blog.PostEdit | yatube/posts/views.py:82-103 | unknown post: not found; a non-author is redirected to the post page and nothing changes; the author's valid form rewrites text, group and image only (keeping the image when no file is sent) and redirects to the post page; an invalid form changes nothing |
| Store.Blog.AddComment | yatube/posts/views.py:106-116 | unknown post: not found; otherwise a redirect to the post page, with one comment by the caller, holding the stripped text, appended exactly when the comment form accepts the text |
| Store.Blog.ProfileFollow | yatube/posts/views.py:128-134 | unknown user: not found; two or more stored edges: server error; otherwise the follow table becomes `FollowEdges` and the browser goes to the profile; no duplicate is introduced |
| Store.Blog.ProfileUnfollow | yatube/posts/views.py:137-141 | always redirects to the profile; the follow table loses exactly the caller's edges to users of that username; no duplicate is introduced |
| Store.Blog.CreateGroup | yatube/posts/models.py:7-13 | a taken slug is refused and nothing changes; otherwise one group is appended with a fresh key |
| Store.Blog.DeleteUser | yatube/posts/models.py:25-30 | the user, their posts, their comments, the comments on their posts and every edge from or to them are deleted; groups stay; integrity is kept; no duplicate edge is introduced |
| Store.Blog.DeletePost | yatube/posts/models.py:55-60 | the post and its comments are deleted; nothing else changes; integrity is kept |
| Store.Blog.DeleteGroup | yatube/posts/models.py:31-39 | the group is deleted; each of its posts stays with no group; nothing else changes; integrity is kept |
| Scenarios.FollowTwiceThenUnfollow | yatube/posts/tests/test_views.py:267-282 | follow, follow again, unfollow give edge counts 1, 1, 0, each ending on the profile |
| Scenarios.AuthorPublishes | yatube/posts/views.py:62-79 | on a fresh blog, one accepted post by the author leaves exactly that post, stripped, with no comment or follow, and integrity kept |
| Scenarios.EditWithoutUploadKeepsImage | yatube/posts/views.py:88-93 | the author's edit that sends new text and no file leaves the post with the new text and its old image |
| Scenarios.PublishThenFollow | yatube/posts/tests/test_views.py:251-265 | on a fresh blog, one valid post by the author and one follow by the follower leave exactly that post and that edge, with integrity kept |
| Scenarios.FollowerSeesNewPost | yatube/posts/tests/test_views.py:284-290 | after following, the author's new post is in the follower's feed and not in the author's own |
| Scenarios.ProfileShowsFollowing | yatube/posts/views.py:36-39 | the follower's view of the author's profile says `following`; an anonymous view fails in the follow lookup, as the code does |
| Scenarios.ForeignEditAndShortComment | yatube/posts/views.py:86-116 | another user's edit leaves the post's text as it was, a too-short comment stores nothing, and both land on the post page |

## Findings

| source | as written | input that shows it | evidently intended | confidence | as-written member | corrected member |
|---|---|---|---|---|---|---|
| yatube/posts/views.py:38-39 | `profile` looks up the follow edge by `request.user` for every visitor, so under Django 2.2 an anonymous visitor's request raises (HTTP 500) | the paginator test's client, which never signs in (`yatube/posts/tests/test_views.py:214`), requests the profile of the test user with no `page` parameter and with `?page=2` | an anonymous visitor sees the profile, with `following` false, and the paginator test's full first page and one-post second page (`yatube/posts/tests/test_views.py:233-248`) | likely; not executed | Store.Blog.AnonymousProfileRequestsFail | Store.Blog.ProfileForAnyViewer |

The as-written `Store.Blog.Profile` stays in the model, and its row above
states what the code does. `Store.Blog.ListingsOverflowToSecondPage` proves
the test's expectation for the corrected profile, and
`Store.Blog.SignedInProfilesAgree` shows the correction changes nothing for a
signed-in viewer.

## Left out

- Response caching (`cache_page(20)` on `index`): caching changes when a page is recomputed, not what it contains.
- `login_required`: the login redirect happens before the handler runs, so the model's handlers take a signed-in caller.
- Template rendering, page titles and flash messages: these are presentation only.
- Image upload and storage: an image is its stored path, an `Image` string.
- Image decoding: modelled only as the `imageValid` argument, since the model holds no file contents.
- Reading the `page` query string as an integer is left to the framework. The parameter is a string; anything `int()` cannot parse, such as `"2.0"`, serves page 1 as `NotANumber`. The model takes the outcome as a `PageQuery`.
- Paginator orphans: `get_paginator` uses the default of none.
- `Follow.Meta.ordering` (`-author`): no handler lists follow rows, and neither counts nor existence depend on ordering.
- Tie order: posts or comments with equal dates keep table order here. The database does not promise any order for them.
- `users/views.py` (the sign-up view `SignUp` with its `CreationForm`, and two password-reset views, one of whose `form_class` is `CreateView` rather than a form) and `validators.py` (a validator nothing uses): neither is part of this model.
- Migrations: they create the same tables the models declare.
- Concurrency between requests: each handler runs as one atomic step.
