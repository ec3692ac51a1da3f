# Author and Post field validators

This project models the field validators of the two records of a small blog
application, an Author and a Post. Every field validator takes the value about
to be assigned. It either returns that value unchanged or raises a validation
error with a fixed message. Its guards run in a fixed order, so the first rule
that fails decides the message.

- `Author` (author.dfy) has `validate_name` and `validate_phone_number`. A name
  must be non-blank, and it must not already belong to a different stored
  author. The record's own id and the stored (id, name) rows are explicit
  parameters. `None` stands for a record that has not been saved yet. The rows
  are in the order the lookup returns them, and the first row with the name
  decides.
- `Post` (post.dfy) has `validates_title`, `validates_content`,
  `validates_summary` and `validates_category`.
- `PyStr` (pystr.dfy) gives the Python string built-ins these validators use:
  `strip()`, `isdigit()`, `sub in s` and `any(...)` over the phrase list.
  `Strip`, `Contains` and `ContainsAny` are functions, each proved to agree
  with a plain definition. `Strip(s)` is `s` with its leading and trailing
  whitespace removed. `Contains(s, sub)` holds exactly when some position of
  `s` starts `sub`. `IsDigit` is defined directly as the ASCII digit test,
  and `IsSpace` lists the characters for which `isspace()` holds.
- `Wrappers` (wrappers.dfy) has `Result`, which is `Ok(value)` or
  `Err(message)` and stands for "returns the value" or "raises with the
  message". It also has `Option`.

The error messages are the source's strings, character for character. That
includes "atleast" in the content message. It also includes the summary
message "should be less than 250 characters", even though the code accepts a
summary of exactly 250 characters. The model follows the code: 250 is accepted.

## Model

| member | source | states |
|---|---|---|
| `Author.ValidateName` | server/models.py:16-24 | Returns the name unchanged when accepted. Refuses with "Name is required" exactly when every character is whitespace (the empty name included). Refuses with "Author name must be unique" exactly when the name is non-blank and the first stored row with that exact name has an id other than the record's own; an unsaved record differs from every row. No other outcome exists. |
| `Author.FirstWithName` | server/models.py:20 | The lookup finds nothing exactly when no row has the name. Otherwise it returns the id of the first row holding the name. |
| `Author.BlankNameIgnoresStore` | server/models.py:17-18 | A blank name is refused with "Name is required" for every store and every record id, so the uniqueness lookup never decides it. |
| `Author.OwnNameAccepted` | server/models.py:20-24 | Re-assigning a saved record the non-blank name it already holds is accepted when no name appears twice in the store. |
| `Author.NewRecordRefusedTakenName` | server/models.py:20-22 | A record without an id is refused with the uniqueness message whenever any stored author has the name. |
| `Author.FirstMatchDecides` | server/models.py:20-22 | An example of the first match deciding: with the rows `[(1, "Ann"), (2, "Ann")]`, "Ann" is accepted for record 1 and refused for record 2. |
| `Author.InsertKeepsNamesUnique` | server/models.py:20-24 | Adding a new author whose name was accepted to a store of unique names leaves the names unique. |
| `Author.RenameKeepsNamesUnique` | server/models.py:20-24 | Renaming a stored author to a name that was accepted for it leaves the names unique, given unique names and unique ids. |
| `Author.ValidatePhoneNumber` | server/models.py:27-37 | Accepted, and returned unchanged, exactly when the number is ten characters long and all of them are digits. An empty number gets "Phone number is required". Any non-digit gets the digits-only message whatever the length. The "exactly 10 digits" message is given only to non-empty, all-digit numbers of another length. |
| `Author.PhoneExamples` | server/models.py:28-35 | "555-123-4567" gets the digits-only message, not the length message. "5551234567" is accepted. "555123456" gets the length message. |
| `Post.ValidateTitle` | server/models.py:55-63 | Accepted, and returned unchanged, exactly when the title is not blank and contains "Won't Believe", "Secret", "Top" or "Guess" as a case-sensitive substring. A blank title gets the required message. A non-blank title without any of the phrases gets the clickbait message. |
| `Post.TitleAcceptedInContext` | server/models.py:59-60 | A phrase counts anywhere: an accepted title stays accepted with any text added before or after it. |
| `Post.TitleWithoutCapitalsRefused` | server/models.py:59-61 | Matching is case-sensitive. A non-blank title without the capitals W, S, T and G gets the clickbait message. |
| `Post.TitleExamples` | server/models.py:56-63 | "Top 10 Secrets" is accepted. A title of spaces and a tab is refused as required. |
| `Post.LowerCaseTitleExample` | server/models.py:59-61 | "top secret" is refused with the clickbait message. |
| `Post.ValidateContent` | server/models.py:66-73 | Accepted, and returned unchanged, exactly when the content has at least 250 characters. Empty content gets the required message. 1 to 249 characters get the minimum-length message. |
| `Post.ContentBoundary` | server/models.py:70-73 | 249 characters are refused and 250 are accepted, whatever the characters are, whitespace included; nothing is stripped. |
| `Post.ValidateSummary` | server/models.py:76-83 | Accepted, and returned unchanged, exactly when the summary has between 1 and 250 characters. Empty gets the required message. More than 250 gets the maximum-length message. |
| `Post.SummaryBoundary` | server/models.py:80-83 | 250 characters are accepted and 251 are refused. |
| `Post.ValidateCategory` | server/models.py:86-92 | Accepted, and returned unchanged, exactly when the category equals "Fiction" or "Non-Fiction". Empty gets the required message. Anything else gets "Invalid Post Category". |
| `Post.CategoryExamples` | server/models.py:87-92 | "Fiction" and "Non-Fiction" are accepted. "fiction" and "Non-fiction" are invalid. The empty string is required. |
| `PyStr.Strip` | server/models.py:17 | `strip()` is empty exactly when every character is whitespace. Otherwise it neither starts nor ends with whitespace and is no longer than its argument. |
| `PyStr.StripRemovesBothEnds` | server/models.py:56 | The result of `strip()` is the piece of the string between its leading whitespace and its trailing whitespace. Everything before and after that piece is whitespace. |
| `PyStr.StripEmptyIffAllSpace` | server/models.py:56 | Stripping both ends leaves nothing exactly when the string is all whitespace. |
| `PyStr.LStrip` | server/models.py:17 | The result is a suffix of the argument. Everything dropped is whitespace, and the result does not start with whitespace. |
| `PyStr.RStrip` | server/models.py:17 | The result is a prefix of the argument. Everything dropped is whitespace, and the result does not end with whitespace. |
| `PyStr.IsSpace` | server/models.py:17 | The whitespace of `strip()`: exactly the characters for which CPython's `str.isspace()` holds, written out. These are U+0009 to U+000D, U+001C to U+001F, the space, U+0085, U+00A0, U+1680, U+2000 to U+200A, U+2028, U+2029, U+202F, U+205F and U+3000. |
| `PyStr.IsDigit` | server/models.py:31 | `isdigit()` holds exactly when the string is non-empty and every character is one of '0' to '9'. |
| `PyStr.Contains` | server/models.py:60 | `sub in s` holds exactly when `sub` occurs at some position of `s`. |
| `PyStr.ContainsAny` | server/models.py:59-60 | `any(p in s for p in phrases)` holds exactly when one of the phrases occurs in `s`. |
| `PyStr.OccursInContext` | server/models.py:60 | An occurrence of a phrase in `s` is still an occurrence in `pre + s + post`. |

## Left out

- The ORM and web framework around the validators are not modelled. That covers the `db` object, the column declarations, the `unique` and `nullable` schema flags and the `@validates` hook. The model calls the validators directly.
- The database query behind the name check is replaced by the explicit list of (id, name) rows. Sessions, autoflush, commits and SQL collation are not modelled. Names compare exactly, character by character.
- The timestamps `created_at` and `updated_at` are not modelled. The database engine fills them in, not the validators.
- `__repr__` is not modelled. It only formats a string.
- The check-then-write race on name uniqueness between concurrent requests is not modelled. `InsertKeepsNamesUnique` and `RenameKeepsNamesUnique` hold only when nothing writes between the check and the save.
- `Author.ValidatePhoneNumber`: `isdigit()` accepts only the ASCII digits '0' to '9'. Python also accepts other Unicode digits, such as Arabic-Indic digits and superscripts.
- A `None` value is not modelled separately. Python's `not x` treats `None` like the empty string, and the model uses the empty string for both.
- Whitespace for `strip()` is the fixed set of characters for which Python's `str.isspace()` holds. It is written out in `PyStr.IsSpace`.
