# Oqee channel resolver, modelled in Dafny

The Oqee tool server exposes a `play_channel` tool. It takes a free-text
channel name and returns the play URL of the closest channel in the service
plan. "Closest" means smallest Levenshtein edit distance between the
lower-cased query and the lower-cased channel name. This project models the
two pieces of logic behind that tool and proves their properties.

- `edit_distance.dfy`, module `EditDistance`: the recursive prefix
  definition of the edit distance (`PrefixDist`, `Dist`). It also holds the
  rolling-row dynamic program `LevenshteinDistance`, proved to return
  exactly `Dist`. Its outer loop calls `NextRow`, the inner loop that builds
  one row. Lemmas prove symmetry, the empty-string boundary, the length
  bounds, and that the distance is zero exactly for equal strings.
- `channel_resolver.dfy`, module `ChannelResolver`: the channel records,
  ASCII lower-casing, the first-wins argmin scan (`FirstMin`, and `Nearest`
  over the plan), the play URL, and the method `PlayChannel`. That method
  runs the source's selection loop and is proved to build the URL of the
  channel `Nearest` picks. Lemmas prove that this channel is a closest one
  and is the first of the closest ones, and that a later channel at equal
  distance never replaces it.

The decoded channel map is the input of `PlayChannel`. It is given as the
sequence of the map's values in insertion order, which is the order a Python
dict iterates in. The map keys are not used: the URL is built from the
record's own `id` field (`best_match.get('id')`), not from the key. A
missing `id` is rendered as the text `None`, as Python's f-string does.

## Model

| member | source | states |
|---|---|---|
| `EditDistance.LevenshteinDistance` | mcp_server.py:9-26 | for every pair of strings, in either length order, the result equals the recursive prefix edit distance `Dist(s1, s2)` |
| `EditDistance.NextRow` | mcp_server.py:17-24 | given the row of distances for the first `i` characters of `s1`, the new row has `len(s2)+1` entries and entry `k` is the distance between the first `i+1` characters of `s1` and the first `k` of `s2` |
| `EditDistance.Min3` | mcp_server.py:23 | the result is no larger than any of the three candidates and equals one of them |
| `EditDistance.DistSymmetric` | mcp_server.py:10-11 | the distance does not depend on argument order, so the swap changes nothing |
| `EditDistance.DistToEmpty` | mcp_server.py:13-14 | the distance between a string and the empty string, in either order, is the string's length |
| `EditDistance.DistBounds` | mcp_server.py:16-26 | the distance is at most the longer length and at least the difference of the lengths |
| `EditDistance.DistZeroIff` | mcp_server.py:20-23 | the distance is 0 if and only if the two strings are equal |
| `ChannelResolver.Lower` | mcp_server.py:49 | lower-casing keeps the length, turns every ASCII capital into its lower-case letter, leaves no ASCII capital, and leaves every other character unchanged |
| `ChannelResolver.LowerIdempotent` | mcp_server.py:49 | lower-casing an already lower-cased string changes nothing |
| `ChannelResolver.MissingNameDistance` | mcp_server.py:48-49 | a channel without a name is measured as the empty string, so its distance is the query's length |
| `ChannelResolver.FirstMin` | mcp_server.py:44-52 | the scan selects no index exactly when there are no candidates; otherwise it selects an index in range |
| `ChannelResolver.FirstMinIsFirstMinimum` | mcp_server.py:44-52 | on a non-empty sequence, the selected value is no larger than any value, and every value before it is strictly larger |
| `ChannelResolver.FirstMinCharacterised` | mcp_server.py:44-52 | the scan selects index `k` if and only if `k` is the first position of a minimum |
| `ChannelResolver.FirstMinKeepsFirstOnTie` | mcp_server.py:50-52 | a later candidate whose distance is not strictly smaller never replaces the current best |
| `ChannelResolver.FirstMinTakesStrictlySmaller` | mcp_server.py:50-52 | a later candidate that is strictly closer becomes the new best |
| `ChannelResolver.Nearest` | mcp_server.py:39-52 | no channel is selected exactly when the plan is empty; otherwise the selected index is a position of the plan |
| `ChannelResolver.NearestIsClosest` | mcp_server.py:44-52 | channel `k` is selected if and only if no channel is strictly closer to the lower-cased query and every earlier channel is strictly farther |
| `ChannelResolver.NearestIgnoresQueryCase` | mcp_server.py:49 | two queries that lower-case to the same string select the same channel |
| `ChannelResolver.PlayUrl` | mcp_server.py:55-56 | the URL is the fixed channels prefix, then exactly the id, then `/play`, and its length is the sum of the three |
| `ChannelResolver.PlayUrlRoundTrip` | mcp_server.py:55-56 | the channel id can be read back from its play URL, so distinct ids give distinct URLs |
| `ChannelResolver.PlayChannel` | mcp_server.py:39-59 | an empty plan gives no URL; otherwise the URL is the play URL of the record `Nearest` selects, with a missing id rendered as `None` |

## Left out

- The HTTP request to the service-plan endpoint, `raise_for_status` and JSON decoding (mcp_server.py:35-37) are I/O. The decoded channel map is the input of `PlayChannel`. A plan without `result` or `channels` is the empty sequence.
- The exception handlers and `print` calls (mcp_server.py:41, 61-64) are logging on I/O failure. The model keeps only the `None` return for an empty plan.
- The `FastMCP` instance and the `@mcp.tool()` registration (mcp_server.py:5-7, 28) are a library wrapper with no logic.
- The `__main__` demonstration block (mcp_server.py:66-71) is not modelled.
- `ChannelResolver.Lower`: maps only the ASCII capitals `A`-`Z` to lower case. Python's Unicode `str.lower()` also changes other characters and can change the length of a string; that is not modelled.
- `ChannelResolver.PlayChannel`: the check `if best_match:` (mcp_server.py:54) also fails for a channel record that is an empty dict. A record is modelled as two optional fields. So this Python truthiness case is not modelled, and after a non-empty scan a best match always exists.
- `EditDistance.NextRow`: the inner loop body of mcp_server.py:19-23 is a separate method, called once per outer iteration. The computation and the order of the appends are unchanged.
- Concrete distances, such as the one between `kitten` and `sitting`, are not proved. The verifier cannot unfold the recursive definition that far on its own.
- A `name` value that is present but not a string (JSON `null`, a number) makes `name.lower()` at mcp_server.py:49 raise, and so does a `result` value of `null` at mcp_server.py:39. The handlers at mcp_server.py:61-64 do not catch these errors, so the tool call fails. The model's input type holds only strings or absent fields, so these inputs fall outside it.
