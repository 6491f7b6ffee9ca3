# A Dafny model of the joey-musselman-website core

This project models, in Dafny, the deterministic heart of the website
repository: the Python image-pipeline scripts (green-screen matting,
watermark removal, colour variants, sprite-sheet layout, asset
ingestion), the Socket.IO caption-contest server (`server.js`), the
podcast feed and episode routes, the commit-ingest route and the scripts
that feed it (`backfill-commits.ts`, `run-migration.ts`), the small
React helpers (activity feed, record-store playback controls), the
Clown Club game libraries (event emitter, Avalon helpers, the
multiple-choice widget, sprite-key resolution, the asset registry, theme
loading, debug mock data), the admin project catalogue (route and page)
and the Abducktion move buttons.

Everything is a pure function over immutable datatypes. Images are
rectangular `seq<seq<Pixel>>` with integer channels. Per-pixel float
arithmetic is done in `real`, and the cast to `uint8` is `Floor`. Rooms,
catalogues and emitters are records holding sequences and ordered
association lists, so that JavaScript `Map` insertion order is kept.
Randomness, clocks, file contents, process output and opaque library
calls (LANCZOS resampling, rembg, JSON parsing) are parameters. Each
module follows one source file. `Wrappers`, `Text`, `Seqs`,
`OrderedMap`, `StringOrder` and `Raster` are shared helpers.

## Model

| member | source | states |
|---|---|---|
| GreenMatte.MattePixel | scripts/ingest-image.py:152-194 | red and blue are copied; alpha is 0 exactly when the background test or the strong-green test fires; any other pixel keeps alpha ≥ 51 (20% of 255), and 255 when its green ratio is ≤ 0.8; only soft-edge pixels (0 < alpha < 240) have green lowered, to at most 1.2·(r+b)/2 |
| GreenMatte.Matte | scripts/ingest-image.py:152-194 | same width and height; R and B unchanged everywhere; alpha 0 at a pixel iff that pixel is keyed as background |
| GreenMatte.MatteIgnoresInputAlpha | scripts/ingest-image.py:155-178 | output depends on r, g, b only: changing the input alpha changes nothing |
| GreenMatte.MatteStableOffEdges | scripts/ingest-image.py:168-184 | matting again is a no-op on every pixel that did not become a soft edge |
| GreenMatte.PureGreenIsRemoved | scripts/ingest-image.py:159-175 | a pure (0,255,0) image becomes fully transparent |
| GreenMatte.NearBlackIsKept | scripts/ingest-image.py:165-178 | a near-black (10,10,10) image keeps its colours and full opacity |
| Ingest.BaseName | scripts/ingest-image.py:261 | the file name has no '/' and ends the path |
| Ingest.Stem | scripts/ingest-image.py:263 | stem followed by suffix gives back the file name |
| Ingest.StemOfPng | scripts/ingest-image.py:259-263 | the stem of `n.png` is `n`, and its suffix is ".png" |
| Ingest.FinalName | scripts/ingest-image.py:257-261 | a given output name ends in ".png" after naming; without one, the input's file name is used |
| Ingest.FinalNameIdempotent | scripts/ingest-image.py:258-259 | naming an already-named output changes nothing |
| Ingest.InferZone | scripts/ingest-image.py:396-410 | an explicit zone wins and keeps the stem; an inferred zone is one of lobby/arcade/records and the stem is `zone-rest` |
| Ingest.InferZoneRoundTrip | scripts/ingest-image.py:399-404 | a stem `zone-rest` with a known zone always splits back into `(zone, rest)` |
| Ingest.ParseInt | scripts/ingest-image.py:138 | the text is accepted exactly when, with its surrounding white space trimmed and an optional sign dropped, it is digits that single underscores may separate |
| Ingest.ParseIntOfDigits | scripts/ingest-image.py:138 | a plain run of digits reads as its decimal value |
| Ingest.ParseIntPadded | scripts/ingest-image.py:138 | a printed number, with or without a minus sign and with white space on either side, reads back as that number (" 800" is 800) |
| Ingest.ParseIntGroupedValue | scripts/ingest-image.py:138 | two digit runs joined by one underscore read as the digits run together ("8_00" is 800) |
| Ingest.ParseIntDoubleUnderscore | scripts/ingest-image.py:138 | a doubled underscore ("8__00") is rejected |
| Ingest.ParseSizeRoundTrip | scripts/ingest-image.py:136-139 | a printed `WxH` reads back as `(W, H)`, whichever case the `x` has |
| Ingest.ResizeImage | scripts/ingest-image.py:136-139 | the resize succeeds iff the size parses and both sides are positive (PIL refuses a zero or negative side), and then has exactly the parsed size; every failure is the resize error |
| Ingest.ResizeToPrintedSize | scripts/ingest-image.py:136-139 | resizing to a printed `WxH` succeeds iff both sides are positive, and gives a W×H image |
| Ingest.TotalSteps | scripts/ingest-image.py:279-282 | 4 steps iff a background step is requested, else 3 |
| Ingest.RemoveWatermark | scripts/ingest-image.py:53-66 | with the import fallback, the watermark step returns the image unchanged |
| Ingest.RemoveGreenBackground | scripts/ingest-image.py:142-150 | without numpy the image is unchanged; with numpy, alpha 0 exactly on keyed pixels |
| Ingest.RemoveBackgroundAi | scripts/ingest-image.py:197-201 | without rembg the image is unchanged |
| Ingest.ToRgb | scripts/ingest-image.py:276-277 | converting to RGB keeps every colour and makes every pixel opaque |
| Ingest.BackgroundRemoved | scripts/ingest-image.py:341 | the manifest says "green" iff green_bg, "ai" iff remove_bg without green_bg, and nothing otherwise |
| Ingest.ProcessImage | scripts/ingest-image.py:232-354 | missing theme or zone is an error; the saved image is the prepared one; without a resize the final image equals the processed one; the manifest entry records the watermark flag, the background source and the paths under `theme/zone/name` |
| Ingest.BarePipelineOnlyConverts | scripts/ingest-image.py:272-323 | with no optional libraries and no resize, the final image is the input converted to RGB |
| Ingest.RecordAsset | scripts/ingest-image.py:328-346 | the asset's own manifest entry is replaced and every other entry kept |
| SpriteSheet.InFlipSources | scripts/build-spritesheet.py:121-124 | exactly front-walk, side-idle, side-walk and back-walk are flipped |
| SpriteSheet.Paste | scripts/build-spritesheet.py:90 | pasting keeps the destination's size; inside the source's rectangle each pixel is the composite of source over destination, outside it the destination is unchanged |
| SpriteSheet.ResizeFrame | scripts/build-spritesheet.py:80-92 | a size×size canvas with the thumbnail centred at ((size−w)//2, (size−h)//2), fully inside the canvas, and transparent elsewhere |
| SpriteSheet.Flip | scripts/build-spritesheet.py:94-96 | same dimensions; column x comes from column width−1−x |
| SpriteSheet.FlipInvolution | scripts/build-spritesheet.py:94-96 | flipping twice gives the original image |
| SpriteSheet.ProcessFrame | scripts/build-spritesheet.py:109-111 | a processed frame (matte, then resize) is exactly 256×256 |
| SpriteSheet.ProcessAll | scripts/build-spritesheet.py:102-112 | a processed frame exists exactly for each frame file present, and is that file processed; missing files are skipped |
| SpriteSheet.AddFlipOf | scripts/build-spritesheet.py:121 | adds the flipped copy of one frame when the frame exists, changing no other entry |
| SpriteSheet.AddFlips | scripts/build-spritesheet.py:119-124 | the intended flip step: every processed frame is kept, and a flipped copy is added for each flip source that was processed and for no other |
| SpriteSheet.AddFlipsAsWritten | scripts/build-spritesheet.py:119-124 | the flip step as written fails iff a flip source is missing, naming the first missing one in order; otherwise it equals AddFlips |
| SpriteSheet.PasteCells | scripts/build-spritesheet.py:140-152 | the sheet under assembly is always 768×1024 |
| SpriteSheet.CellFootprint | scripts/build-spritesheet.py:144-149 | a sheet pixel lies in cell k's 256×256 square iff its cell is k; cells never overlap, and the offset inside the cell is (y mod 256, x mod 256) |
| SpriteSheet.PasteCell | scripts/build-spritesheet.py:144-152 | pasting cell k changes only the pixels of cell k, and only when its frame exists |
| SpriteSheet.PasteCellsAt | scripts/build-spritesheet.py:144-152 | after the first k cells, a pixel of an earlier cell holds its frame's pixel and every other pixel is still transparent |
| SpriteSheet.AssembleSheet | scripts/build-spritesheet.py:126-152 | the sheet is (3·256)×(4·256), and every pixel comes from the frame named in its cell's layout slot (transparent if that frame is missing) |
| SpriteSheet.BuildSpritesheetAsWritten | scripts/build-spritesheet.py:98-152 | the script as written fails iff one of the four flip sources is missing |
| SpriteSheet.MissingSideWalkAborts | scripts/build-spritesheet.py:123 | a missing side-walk frame aborts the whole build |
| SpriteSheet.BuildSpritesheet | scripts/build-spritesheet.py:98-152 | the corrected build always yields the 768×1024 sheet laid out from the processed and flipped frames |
| SpriteSheet.AsWrittenAgreesWhenComplete | scripts/build-spritesheet.py:98-152 | the script as written succeeds exactly when the four mirror sources are present, and then it builds the same sheet as the corrected build, whichever other frames are missing |
| SpriteSheet.MissingCellIsClear | scripts/build-spritesheet.py:146-152 | in the corrected build, a cell whose source frame is missing stays transparent |
| Cosmetic.SampledMatte | scripts/process-cosmetic.py:25-48 | fails iff the sample point (row 5, column 5) is outside the image; otherwise keeps the size, clears a pixel to (0,0,0,0) iff each of R, G, B is within the tolerance of the sample, and leaves every other pixel, alpha included, untouched |
| Cosmetic.SampleIsKeyed | scripts/process-cosmetic.py:38-46 | the sampled pixel itself always becomes transparent |
| Cosmetic.FirstRow | scripts/process-cosmetic.py:54 | the first row with content at or after i, with no content in the rows skipped |
| Cosmetic.EndRow | scripts/process-cosmetic.py:54 | one past the last row with content before j, with no content in the rows dropped |
| Cosmetic.FirstCol | scripts/process-cosmetic.py:54 | the first column with content at or after i, with no content in the columns skipped |
| Cosmetic.EndCol | scripts/process-cosmetic.py:54 | one past the last column with content before j, with no content in the columns dropped |
| Cosmetic.ContentInBox | scripts/process-cosmetic.py:54 | a pixel with content lies inside the rows and columns found |
| Cosmetic.BoxAround | scripts/process-cosmetic.py:54 | around any pixel with content the rows and columns found form a non-empty box inside the image whose border rows and columns have content |
| Cosmetic.AllContentInBox | scripts/process-cosmetic.py:54 | every pixel with content lies inside the rows and columns found |
| Cosmetic.ContentBox | scripts/process-cosmetic.py:54-55 | no box iff no pixel has content; otherwise a non-empty box inside the image that holds every pixel with content and is tight: its first and last rows and columns each hold a content pixel |
| Cosmetic.CropToContent | scripts/process-cosmetic.py:51-57 | an image without content is returned unchanged; otherwise the result is exactly the part of the image inside the content box, moved to the corner |
| Cosmetic.CropKeepsContent | scripts/process-cosmetic.py:51-57 | after the crop every pixel with content lies in the box and sits at its shifted position |
| Cosmetic.FitSize | scripts/process-cosmetic.py:60-72 | a zero side is an error; sides within max_size are kept; otherwise both sides shrink and each ends up at most max_size |
| Cosmetic.FitScaleBelowOne | scripts/process-cosmetic.py:65-67 | the scale is below 1 iff a side exceeds max_size |
| Cosmetic.FitBound | scripts/process-cosmetic.py:65-69 | a scaled side lies between 0 and the smaller of its old length and max_size |
| Cosmetic.ResizeToFit | scripts/process-cosmetic.py:60-72 | fails iff a side is 0 or the fitted size has a side of 0 (PIL rejects it); an image already within max_size comes back unchanged; any other success has the fitted size; a result always fits in max_size×max_size with positive sides |
| Cosmetic.TooThinFails | scripts/process-cosmetic.py:65-70 | an image wider than max_size whose height times max_size is below its width shrinks to height 0 and fails |
| Cosmetic.SplitExt | scripts/process-cosmetic.py:78 | base and extension put back together give the path; the extension is empty or starts with '.', and has no '/' |
| Cosmetic.DefaultOutputPath | scripts/process-cosmetic.py:77-79 | the default output is base + "-clean" + extension |
| Cosmetic.DefaultOutputOfPng | scripts/process-cosmetic.py:77-79 | `dir/stem.png` gets the default output `dir/stem-clean.png` |
| Cosmetic.ProcessCosmetic | scripts/process-cosmetic.py:97-107 | fails with the sample error when the sample point is outside the image; otherwise it is the fit-resize of the crop to content of the matted image, and a success fits in size×size with positive sides |
| Cosmetic.SmallCosmeticKeepsContent | scripts/process-cosmetic.py:97-107 | when the content box already fits, the result is exactly the cropped matte, and every pixel that is neither transparent nor near the sampled colour keeps its colour at its place in the box |
| Cosmetic.KeyedKeepsPixel | scripts/process-cosmetic.py:98 | a pixel that is not near the sampled colour is left as it is by the matte |
| Cosmetic.CropKeepsPixel | scripts/process-cosmetic.py:102 | a content pixel lies in the content box and keeps its colour in the crop |
| Cosmetic.CroppedNonEmpty | scripts/process-cosmetic.py:102 | cropping a non-empty image never yields an empty one |
| Watermark.ToRgb | scripts/remove-watermark.py:125-126 | converting to RGB keeps every colour and makes every pixel opaque |
| Watermark.OutputPath | scripts/remove-watermark.py:107-115 | the output path is the given one, or the input path when none is given |
| Watermark.CropMethodRemove | scripts/remove-watermark.py:24-30 | fails iff the margin exceeds a side; otherwise the output has exactly the input's width and height |
| Watermark.CropIgnoresCornerBand | scripts/remove-watermark.py:27-30 | the crop method looks only at the top-left (width−margin)×(height−margin) part: images agreeing there give the same result |
| Watermark.SampleRegion | scripts/remove-watermark.py:42-51 | the sample is the 20×20 block just above and left of the corner square, in row order |
| Watermark.SumBounds | scripts/remove-watermark.py:52-54 | a channel sum lies between n·lo and n·hi |
| Watermark.SumUniform | scripts/remove-watermark.py:52-54 | the sum of n equal channel values c is n·c |
| Watermark.AverageIsChannel | scripts/remove-watermark.py:52-54 | the floor-division mean of channel values is itself a channel value |
| Watermark.AverageOfUniform | scripts/remove-watermark.py:52-54 | the mean of a uniform sample is that value |
| Watermark.BlendFactor | scripts/remove-watermark.py:64-68 | min(1, (dx+dy)/(1.5·size)) lies in [0, 1] |
| Watermark.MixBetween | scripts/remove-watermark.py:74-76 | a blended channel lies between the original and the average; blend 0 keeps the original and blend 1 gives the average |
| Watermark.FillMethodRemove | scripts/remove-watermark.py:33-80 | same size; pixels outside the bottom-right size×size square are unchanged; each corner pixel is its original blended towards the sample average, both read from the input image, so the result does not depend on the loop order |
| Watermark.FillKeepsChannels | scripts/remove-watermark.py:74-78 | every channel of the filled image stays in 0..255 |
| Watermark.FillCornerEnds | scripts/remove-watermark.py:64-78 | the square's top-left pixel is unchanged; for size ≥ 4 the bottom-right pixel becomes the average colour |
| Watermark.FillColourOfUniformSample | scripts/remove-watermark.py:43-55 | a uniform sample region gives that colour as the average |
| Watermark.CloneMethodRemove | scripts/remove-watermark.py:83-100 | same size; corner pixel (x, y) takes the pixel at (x, y−2·size), every other pixel is unchanged |
| Watermark.CloneIdempotent | scripts/remove-watermark.py:90-98 | when height ≥ 3·size, cloning twice changes nothing more |
| Watermark.RemoveWatermark | scripts/remove-watermark.py:103-135 | only the crop method can fail, and only when the size exceeds a side; every result keeps the input's width and height |
| Recolor.RecolorPixel | scripts/generate-color-variants.py:39-73 | alpha is kept; a pixel outside the mask is unchanged; each channel of a masked pixel is the target channel times mean/255, rounded down, and so never exceeds it |
| Recolor.TintBounds | scripts/generate-color-variants.py:56-70 | (mean/255)·t, floored, lies in [0, t] |
| Recolor.ReplaceWhiteWithColor | scripts/generate-color-variants.py:28-74 | same dimensions; every pixel is its own recolour, so alpha is unchanged everywhere and every pixel outside the mask is unchanged |
| Recolor.ReplaceStacks | scripts/generate-color-variants.py:28-74 | the recolour works pixel by pixel: recolouring two stacked images is stacking their recolours |
| Recolor.NoseExclusionRedundant | scripts/generate-color-variants.py:41-53 | dropping the red-nose exclusion leaves the mask unchanged, since the grayscale test already rules it out |
| Recolor.WhiteBecomesTarget | scripts/generate-color-variants.py:45-65 | a visible pure-white pixel becomes exactly the target colour |
| Recolor.TintMonotone | scripts/generate-color-variants.py:56-65 | between two masked pixels, the brighter one gets output channels at least as large |
| Recolor.GrayWithWhiteIsIdentity | scripts/generate-color-variants.py:45-65 | a visible true gray above 60 recoloured with white comes back unchanged |
| Recolor.WhiteTintIsNotIdentity | scripts/generate-color-variants.py:45-65 | a near-gray pixel recoloured with white becomes its mean gray, so the white recolour is not a copy |
| Recolor.GenerateVariants | scripts/generate-color-variants.py:76-97 | one output per colour variant, named `clown-{name}.png`; "white" is the source image itself, every other colour its recolour |
| CaptionRoom.FindPlayer | server.js:199-200 | the first player with the id, or none iff no player has it |
| CaptionRoom.FindSubmission | server.js:281 | the first submission by the player, or none iff the player submitted nothing |
| CaptionRoom.SumValuesAppend | server.js:255-263 | appending an entry adds its count to the total |
| CaptionRoom.SumValuesSet | server.js:262-263 | setting a key's value changes the total by the new value minus the old one |
| CaptionRoom.CountVotesCounts | server.js:255-258 | each candidate's tally is the number of votes naming it, and absent iff it got none |
| CaptionRoom.CountVotesTotal | server.js:255-258 | the tallies add up to the number of votes |
| CaptionRoom.CountVotesDistinct | server.js:255-258 | each candidate appears at most once in the tally |
| CaptionRoom.SetScore | server.js:266-267 | the list keeps its length and every player's id, name and host flag; players with another id are unchanged |
| CaptionRoom.SetScoreFinds | server.js:266-267 | after the update `find` returns the first player with the id carrying the new score; with no such player the list is unchanged |
| CaptionRoom.SetScoreAt | server.js:266-267 | the first player with the id, by position, is the one that gets the score |
| CaptionRoom.FindPlayerAt | server.js:266 | a found player sits at some position with no earlier player of that id |
| CaptionRoom.FindPlayerFirst | server.js:266 | the first player with the id is what `find` returns |
| CaptionRoom.ScorePlayers | server.js:261-268 | the player list keeps its length and every player's id, name and host flag |
| CaptionRoom.ScorePlayersEach | server.js:261-268 | the first player with a voted-for id ends with exactly that id's new total in the score map |
| CaptionRoom.ScorePlayersOther | server.js:261-268 | a player whose id received no vote keeps their entry, score included |
| CaptionRoom.ScorePlayersFinds | server.js:261-268 | `find` on the scored list returns the old player with the voted-for id's new total |
| CaptionRoom.ScoreMapLast | server.js:261-263 | the candidate of the last step gets its earlier total (0 if none) plus its count |
| CaptionRoom.ScoreMapNotLast | server.js:261-263 | every other id keeps its earlier total in that step |
| CaptionRoom.ScoreMapTotal | server.js:260-264 | the total score rises by exactly the number of votes cast |
| CaptionRoom.ScoreMapOther | server.js:260-264 | a player who received no votes keeps their score |
| CaptionRoom.ScoreMapEach | server.js:260-264 | a player's new score is the old one (0 if none) plus the votes they received |
| CaptionRoom.Winner | server.js:270-278 | the winning count bounds every tally; there is no winner iff it is 0; otherwise the winner is the first entry with the strictly largest count |
| CaptionRoom.KeepWinner | server.js:273-278 | an entry that does not beat the current maximum keeps the current winner first among the maxima |
| CaptionRoom.NonEmptyTallyHasWinner | server.js:253-280 | when at least one vote was cast, a winner exists |
| CaptionRoom.WinnerTotal | server.js:261-278 | with distinct candidates the winner's new score is the old one (0 if none) plus the winning count |
| CaptionServer.CodeOfDraw | server.js:17-24 | four draws from the alphabet give a four-letter A–Z code |
| CaptionServer.GenerateRoomCode | server.js:17-28 | the result is a four-letter A–Z code not yet in use: the first unused one among the draws |
| CaptionServer.CreateRoom | server.js:30-115 | exactly one new room, stored in the lobby with round 0 and no players, submissions or votes, under a fresh code; no other room changes; the creator joins its channel and is told the code |
| CaptionServer.AddPlayerToRoom | server.js:48-63 | null for an unknown code; otherwise one player with score 0 is appended, `scores[socket] = 0`, `isHost` iff the socket is the host, and no other field or room changes |
| CaptionServer.RoomIndexOf | server.js:66-68 | the first room whose players include the socket, or the end when there is none |
| CaptionServer.PlayerIndexOf | server.js:67 | the first player with the socket's id (`findIndex`) |
| CaptionServer.WithoutPlayer | server.js:69-71 | one player fewer, the socket's score gone, nothing else changed |
| CaptionServer.RemovePlayerFromRoom | server.js:65-84 | none iff the socket is in no room, and then nothing changes; otherwise the socket leaves the first room containing it, which is deleted iff it became empty or the socket was its host |
| CaptionServer.Store | server.js:30-46 | storing a room replaces only that code's room |
| CaptionServer.RejoinRoom | server.js:118-135 | an unknown or missing code gets a room-not-found error; otherwise the socket becomes the host of the room looked up by the uppercased code and joins its channel |
| CaptionServer.BeginRound | server.js:181-310 | a new round: state 'submitting', round + 1, no submissions, the round's image; votes cleared only on next-round; nothing else changes |
| CaptionServer.HostRound | server.js:177-317 | a non-host or unknown room is ignored; otherwise the room begins a new round, no other room changes, and the room's channel hears of the new round |
| CaptionServer.StartGame | server.js:177-192 | host only: 'submitting', round + 1, no submissions, votes, players and scores kept |
| CaptionServer.NextRound | server.js:301-317 | host only: 'submitting', round + 1, no submissions and no votes, players and scores kept |
| CaptionServer.JoinRoomAsWritten | server.js:138-158 | the handler as written: an unknown or missing code is rejected |
| CaptionServer.LowerCaseJoinIsLost | server.js:142-155 | joining room "ABCD" as "abcd" raises no error but adds nobody and reports a null room |
| CaptionServer.JoinRoom | server.js:138-158 | the corrected join: unknown codes and taken names are rejected; otherwise exactly one player is appended to the room under the uppercased code, the socket joins that channel, and the room and the joiner are told |
| CaptionServer.JoinAgreesOnUpperCase | server.js:138-158 | for an already-uppercase code the handler as written and the corrected one agree |
| CaptionServer.Disconnect | server.js:161-174 | the socket leaves every channel; a socket in no room changes no room and emits nothing; at most one update is emitted |
| CaptionServer.SubmitCaption | server.js:195-230 | ignored unless the room is in 'submitting' and lists the socket; otherwise the trimmed caption is appended, and the room moves to 'voting' with votes cleared exactly when the submission count reaches the player count |
| CaptionServer.Tally | server.js:253-284 | the room goes to results with the score map and the player list rescored from the vote counts, the total score rises by the number of votes, nothing else in the room changes, and the event is the results event of those counts |
| CaptionServer.ResultsEvent | server.js:270-296 | there is a winner iff the best-counted candidate is still a player, and then it is that candidate reported with the new score (old score plus the winning count); the caption is the winner's submission, absent iff there is none; every player's name and new score in order; one line per candidate with its count, name and caption, each absent iff not found |
| CaptionServer.TallyWinner | server.js:266-280 | looking the winner up in the rescored list finds a player iff the unscored list has one, and then the same player with the new score |
| CaptionServer.AllScores | server.js:290 | every player's name and score, in player order |
| CaptionServer.TallyLines | server.js:291-295 | one line per candidate in count order, with the count and the name and caption found for it |
| CaptionServer.VoteCaption | server.js:233-298 | ignored outside 'voting'; a self-vote is rejected; otherwise the vote is stored under the voter (a re-vote overwrites), and results come exactly when the number of voters equals the player count |
| CaptionServer.RevoteKeepsCount | server.js:243 | voting again replaces the earlier vote without adding a voter |
| CaptionServer.DoubleSubmissionOpensVoting | server.js:195-222 | one player submitting twice in a two-player room opens voting with only that player's captions |
| ApiCommon.AuthorizedNeedsSecret | app/api/podcast/episodes/route.ts:21-26 | a request is authorised iff the secret is set and non-empty and the header is exactly "Bearer " + secret |
| ApiCommon.DigitPrefix | app/api/podcast/episodes/route.ts:121-122 | the leading run of digits that `parseInt` reads |
| ApiCommon.HexPrefix | app/api/podcast/episodes/route.ts:121-122 | the leading run of hexadecimal digits read after a 0x marker |
| ApiCommon.UnsignedPrefix | app/api/podcast/episodes/route.ts:121-122 | a marked run of hex digits reads as its radix-16 value and an unmarked run of decimal digits as its decimal value |
| ApiCommon.ParseInt | app/api/podcast/episodes/route.ts:121-122 | `parseInt` without a radix: NaN iff no digit run follows the white space and sign; otherwise the signed value of the run, read in radix 16 after a 0x or 0X marker and in radix 10 otherwise; a plain digit string reads as its decimal value |
| ApiCommon.ParseIntOfNat | app/api/podcast/episodes/route.ts:121-122 | a printed number parses back to itself |
| ApiCommon.ParseIntOfHex | app/api/podcast/episodes/route.ts:121-122 | 0x followed by hex digits reads in radix 16 |
| ApiCommon.ParseIntHexLiteral | app/api/podcast/episodes/route.ts:121-122 | a limit of 0x20 reads as 32 |
| ApiCommon.HexValueOf20 | app/api/podcast/episodes/route.ts:121-122 | the hex digits 20 are worth 32 |
| ApiCommon.ParamOr | app/api/podcast/episodes/route.ts:121-122 | `param \|\| fallback`: the parameter when present and non-empty, else the fallback |
| ApiCommon.PageLimit | app/api/podcast/episodes/route.ts:121 | the default limit is 50; a parsed limit is capped at 100 and otherwise kept |
| ApiCommon.PageOffset | app/api/podcast/episodes/route.ts:122 | the default offset is 0; otherwise the parsed parameter |
| ApiCommon.RowIndices | app/api/podcast/episodes/route.ts:65-69 | row i of a width-w batch uses parameters w·i+1 … w·i+w |
| ApiCommon.FlattenLength | app/api/podcast/episodes/route.ts:62-84 | rows of equal width w flatten to w·n values |
| ApiCommon.FlattenAt | app/api/podcast/episodes/route.ts:62-84 | value w·i+k of the flattened rows is column k of row i |
| PodcastFeed.ReplaceAll | app/api/podcast/feed/route.ts:17-22 | a character absent from the replacement is absent from the result |
| PodcastFeed.ReplaceAllAppend | app/api/podcast/feed/route.ts:17-22 | replacing distributes over concatenation |
| PodcastFeed.EscapeOne | app/api/podcast/feed/route.ts:16-23 | escaping one character gives its entity, or the character itself |
| PodcastFeed.EscapeXmlIsPerChar | app/api/podcast/feed/route.ts:16-23 | the chain of five replacements, '&' first, escapes each character independently |
| PodcastFeed.EscapeXmlHasNoMarkup | app/api/podcast/feed/route.ts:16-23 | the output contains no '<', '>', '"' or "'" |
| PodcastFeed.EscapeXmlAmpersands | app/api/podcast/feed/route.ts:16-23 | every '&' in the output starts one of the five entities |
| PodcastFeed.UnescapeEscapeXml | app/api/podcast/feed/route.ts:16-23 | un-escaping the output gives back the input |
| PodcastFeed.DurationFields | app/api/podcast/feed/route.ts:26-28 | minutes and seconds are below 60, and h·3600 + m·60 + s gives back the input |
| PodcastFeed.ParseMinutes | app/api/podcast/feed/route.ts:30 | `m:ss` reads back as m·60 + s |
| PodcastFeed.ParseHours | app/api/podcast/feed/route.ts:29 | `h:mm:ss` reads back as h·3600 + m·60 + s |
| PodcastFeed.FormatDurationNat | app/api/podcast/feed/route.ts:25-31 | for whole seconds, h:mm:ss when there is at least one hour, otherwise m:ss |
| PodcastFeed.FormatDurationRoundTrip | app/api/podcast/feed/route.ts:25-31 | reading the printed duration gives back the number of seconds |
| PodcastFeed.FormatDurationShape | app/api/podcast/feed/route.ts:25-31 | three fields iff at least 3600 seconds, two otherwise, and every field after the first has two digits |
| PodcastFeed.FullDescription | app/api/podcast/feed/route.ts:65-69 | the description falls back to the title; an AI note (the disclosure, or the default note) follows a blank line exactly for AI-generated episodes |
| PodcastFeed.ItemOf | app/api/podcast/feed/route.ts:63-85 | title and audio URL are escaped so that un-escaping gives them back; the description is the full description and the guid the episode id; pubDate is the UTC rendering of the publication date; the duration reads back as the episode's seconds; the enclosure length defaults to 0; episode and season elements appear iff their values are truthy and then carry those values |
| PodcastFeed.LastBuildDate | app/api/podcast/feed/route.ts:59-61 | an empty feed is dated with the UTC rendering of the current time |
| PodcastFeed.BuildDateIsFirstItem | app/api/podcast/feed/route.ts:59-64 | a non-empty feed carries the first (newest) item's pubDate as its lastBuildDate |
| PodcastFeed.Items | app/api/podcast/feed/route.ts:63-85 | one item per episode, in order |
| PodcastEpisodes.TextOrNull | app/api/podcast/episodes/route.ts:73-81 | null exactly for a missing or empty text; otherwise the text itself |
| PodcastEpisodes.NumOrNull | app/api/podcast/episodes/route.ts:76-77 | null exactly for a missing or zero number; otherwise the number itself |
| PodcastEpisodes.EpisodeRow | app/api/podcast/episodes/route.ts:70-86 | 12 values in the INSERT's column order (id, title, description, audio_url, duration, file_size, episode_number, season, published_at, ai_generated, ai_disclosure, episode_type); falsy description, file size, episode number and disclosure become null and truthy ones are stored as given; a falsy season becomes 1 and any other is kept; a missing `ai_generated` becomes true while false is kept; the type defaults to 'full' and a non-empty one is kept |
| PodcastEpisodes.ReadEpisodeRow | app/api/podcast/episodes/route.ts:70-86 | reading a stored row back column by column gives the episode with the route's defaults applied; applying the defaults first stores the same row; an episode that already carries its defaults reads back unchanged |
| PodcastEpisodes.Rows | app/api/podcast/episodes/route.ts:65-84 | one row per episode, in order |
| PodcastEpisodes.RowsLayout | app/api/podcast/episodes/route.ts:62-84 | the values have 12·n entries and entry 12·i+k is column k of episode i |
| PodcastEpisodes.PostLayout | app/api/podcast/episodes/route.ts:62-104 | an accepted POST sends 12·n values, entry 12·i+k being column k of episode i |
| PodcastEpisodes.Post | app/api/podcast/episodes/route.ts:20-115 | 401 iff not authorised; 400 iff authorised with a missing or empty list; otherwise the upsert carries n rows of placeholders and the flattened rows |
| PodcastEpisodes.ListParams | app/api/podcast/episodes/route.ts:118-135 | two parameters; the limit defaults to 50 and never exceeds 100; the offset defaults to 0 |
| CommitsApi.CommitRow | app/api/commits/route.ts:37-41 | five values in the INSERT's column order sha, repo, message, committed_at, url; the url is null exactly when missing or empty and otherwise stored as given |
| CommitsApi.ReadCommitRow | app/api/commits/route.ts:37-41 | reading a stored row back gives the commit, an empty url reading back as none |
| CommitsApi.Rows | app/api/commits/route.ts:34-38 | one row per commit, in order |
| CommitsApi.RowsLayout | app/api/commits/route.ts:31-38 | the values have 5·n entries and entry 5·i+k is column k of commit i |
| CommitsApi.PostLayout | app/api/commits/route.ts:31-47 | an accepted POST sends 5·n values, entry 5·i+k being column k of commit i |
| CommitsApi.Post | app/api/commits/route.ts:13-58 | 401 iff not authorised; 400 iff authorised with a missing or empty list; otherwise n rows of placeholders and the flattened rows |
| CommitsApi.Collect | app/api/commits/route.ts:72-87 | the present filters, in order, become one condition each on that filter's column with its operator and the next consecutive `$` index, and that filter's value is the text parameter at the same position |
| CommitsApi.CollectCounts | app/api/commits/route.ts:76-87 | one condition per present filter |
| CommitsApi.Conditions | app/api/commits/route.ts:72-87 | as many conditions and values as present filters, numbered 1, 2, …; a repo filter is `repo = $1`; since is `committed_at >=` right after it, and until is `committed_at <=` last, each with its own value |
| CommitsApi.PresentFilters | app/api/commits/route.ts:76-87 | the present filters are the repo, since and until ones that are truthy, in that order |
| CommitsApi.WhereClause | app/api/commits/route.ts:89 | the WHERE clause is empty iff there are no conditions |
| CommitsApi.ListQuery | app/api/commits/route.ts:64-106 | LIMIT and OFFSET take the two indices after the filters, and those parameter slots hold the capped limit and the offset; the filter values come first |
| EnvFile.StripQuotes | scripts/backfill-commits.ts:31 | at most one quote is removed from each end; a value quoted at both ends loses exactly those two quotes; a value without a quote at either end is unchanged |
| EnvFile.ParseLine | scripts/backfill-commits.ts:25-31 | a line is skipped iff, once trimmed, it is empty, starts with '#' or has no '='; otherwise the key is the text before the first '=' and the value is the rest with quotes stripped |
| EnvFile.Assign | scripts/backfill-commits.ts:32 | a variable that is already set (non-empty) is never overwritten |
| EnvFile.AssignAll | scripts/backfill-commits.ts:25-33 | after all lines, every variable that was set before keeps its value |
| EnvFile.LoadEnvLenient | scripts/backfill-commits.ts:20-34 | a missing file leaves the environment unchanged; existing variables are never overwritten |
| EnvFile.LoadEnvStrict | scripts/run-migration.ts:15-32 | a missing file stops the script; otherwise the same result as the lenient loader |
| EnvFile.AssignLine | scripts/backfill-commits.ts:26-32 | a `key=value` line for an unset key sets exactly that key to the value with its quotes stripped |
| EnvFile.FirstLineWins | scripts/backfill-commits.ts:32 | when a key appears twice, the first non-empty value is kept |
| Backfill.FindPrefixed | scripts/backfill-commits.ts:78-79 | the first argument with the prefix, or none iff no argument has it |
| Backfill.ParseArgs | scripts/backfill-commits.ts:74-81 | dry-run iff `--dry-run` is given; without `--since=` or `--projects=` the defaults 2024-07-01 and the default projects path apply |
| Backfill.SinceFlag | scripts/backfill-commits.ts:78 | `--since=d` sets the date to d |
| Backfill.NoArgsDefaults | scripts/backfill-commits.ts:74-81 | with no arguments: no dry run, since 2024-07-01, the default projects path |
| Backfill.RepoOfRest | scripts/backfill-commits.ts:101 | a match is always `owner/name` with two non-empty slash-free parts |
| Backfill.ExtractFrom | scripts/backfill-commits.ts:101-108 | the match starts at the first host occurrence, from i on, that is followed by a valid `owner/name` |
| Backfill.ExtractRepoName | scripts/backfill-commits.ts:96-111 | the result is `owner/name`, or null iff no occurrence of `github.com:` or `github.com/` is followed by one |
| Backfill.RestOfRemote | scripts/backfill-commits.ts:101 | `owner/name` with or without ".git" reads as `owner/name` |
| Backfill.PrefixedRemote | scripts/backfill-commits.ts:101-108 | a remote whose first host occurrence precedes `owner/name[.git]` yields `owner/name` |
| Backfill.SshRemote | scripts/backfill-commits.ts:98-101 | `git@github.com:owner/name.git` yields `owner/name` |
| Backfill.HttpsRemote | scripts/backfill-commits.ts:99-101 | `https://github.com/owner/name`, with or without ".git", yields `owner/name` |
| Backfill.ParseCommitLine | scripts/backfill-commits.ts:133-144 | a line is kept iff it has at least three '\|' fields with non-empty sha, date and rejoined message; a kept commit carries the repo and the url `https://github.com/{repo}/commit/{sha}` |
| Backfill.ParseCommitLineRoundTrip | scripts/backfill-commits.ts:133-144 | `sha\|date\|message` parses back to those three parts even when the message contains '\|' |
| Backfill.ParseLines | scripts/backfill-commits.ts:132-145 | never more commits than lines, each with the repo and its url |
| Backfill.ParsedLinesOnly | scripts/backfill-commits.ts:132-145 | every commit returned is the parse of one of the lines |
| Backfill.ParseLinesKeepsEvery | scripts/backfill-commits.ts:132-145 | every line that parses contributes its commit |
| Backfill.ParseLinesAppend | scripts/backfill-commits.ts:132-145 | the lines of a then b give a's commits then b's: output order follows line order |
| Backfill.GetCommits | scripts/backfill-commits.ts:113-152 | failed or blank git output gives no commits; every commit carries the repo and its url |
| Backfill.Contribution | scripts/backfill-commits.ts:260-275 | a repo's share is its commits when owned and public; every commit then names a selected repo and carries its url |
| Backfill.CollectCommits | scripts/backfill-commits.ts:257-277 | only commits of the owner's public repos are collected, each with its url |
| Backfill.CollectedFromSelected | scripts/backfill-commits.ts:257-277 | every collected commit is one of a selected repo's commits |
| Backfill.CollectsEverySelected | scripts/backfill-commits.ts:257-277 | every commit of every selected repo is collected |
| Backfill.CollectCommitsAppend | scripts/backfill-commits.ts:257-277 | collecting over two lists of repos is collecting over each in turn, repo order kept |
| Backfill.ForeignRepoSkipped | scripts/backfill-commits.ts:262-265 | a repo not under `musselmanjoey/` is skipped, whatever is public |
| Backfill.Insert | scripts/backfill-commits.ts:287 | inserting a commit keeps the list newest first and adds exactly that commit |
| Backfill.SortNewestFirst | scripts/backfill-commits.ts:287 | the result is newest first and a permutation of the input |
| Backfill.Batches | scripts/backfill-commits.ts:169-175 | ⌈n/100⌉ non-empty batches of at most 100 whose concatenation is the list |
| Backfill.BatchAt | scripts/backfill-commits.ts:173-174 | batch b is the slice from 100·b to min(100·b+100, n) |
| Backfill.Backfill | scripts/backfill-commits.ts:154-290 | nothing to ingest iff no commit was collected; otherwise a dry run (iff requested) reports the count and the first min(5, n) commits of the newest-first order; without a truthy secret a real run stops; with one it posts batches whose concatenation is the sorted list, a permutation of every collected commit |
| Backfill.DryRunPreviewsPost | scripts/backfill-commits.ts:154-175 | the dry run previews exactly the first commits the real run posts |
| Migration.CheckTableExists | scripts/run-migration.ts:36-57 | false without the Supabase URL or key; true when the probe has no error; otherwise true iff the error matches none of the four not-found patterns |
| Migration.AnyMatches | scripts/run-migration.ts:55 | true iff some pattern is contained in the message or equals the code |
| Migration.ThirdPatternRedundant | scripts/run-migration.ts:48-51 | a message matching `relation "commits" does not exist` already matches `does not exist` |
| Migration.PatternsMeanMissing | scripts/run-migration.ts:46-55 | the pattern search finds an error exactly when its message mentions a missing relation, a missing table or the code PGRST205, or its code is one of the four strings |
| Migration.RunMigration | scripts/run-migration.ts:89-132 | an existing table stops the run; otherwise it migrates iff a database URL is set and the connection succeeds, and prints instructions otherwise |
| Migration.RunMigrationDecision | scripts/run-migration.ts:36-132 | the run ends with "already exists" exactly when the credentials are set and the probe succeeds or fails for a reason other than a missing table; it migrates exactly when the table is missing or the credentials are absent and the Postgres run succeeds |
| Migration.UnrelatedErrorCountsAsExisting | scripts/run-migration.ts:46-56 | a probe that fails with "fetch failed" is taken to mean the table exists, so nothing is migrated even with a reachable database |
| ActivityFeed.DaysPhrase | components/ActivityFeed.tsx:27-31 | "today" iff 0 days, "yesterday" iff 1; below 7 "N days ago"; below 30 ⌊N/7⌋ "weeks ago"; otherwise ⌊N/30⌋ "months ago" |
| ActivityFeed.FormatDate | components/ActivityFeed.tsx:22-32 | less than a day ago is "today", one to two days "yesterday", and a date a day or more in the future reads as a negative "days ago" |
| ActivityFeed.ShortMessage | components/ActivityFeed.tsx:35-38 | at most 80 characters and a single line; when the message's first line is at most 80 characters the result is exactly that line (the text before the first newline); when it is longer the result is the message's first 77 characters plus "..." |
| ActivityFeed.FirstLineIsPrefix | components/ActivityFeed.tsx:36 | `split('\n')[0]` is the text before the first newline, a prefix of the message without a newline that ends at a newline or at the end |
| ActivityFeed.ShortMessageIdempotent | components/ActivityFeed.tsx:35-38 | shortening an already shortened message changes nothing |
| ActivityFeed.RenderItem | components/ActivityFeed.tsx:57-75 | at most 2 commit lines per item, each the short form of its commit message |
| ActivityFeed.Render | components/ActivityFeed.tsx:18-46 | nothing is rendered iff there is no activity; otherwise the first min(n, 5) items, each with at most 2 commits |
| ActivityFeed.RepoShortName | components/ActivityFeed.tsx:57 | the link text of `owner/name` is `name` |
| Playback.FormatTime | components/clown-club/record-store/PlaybackControls.tsx:67-72 | for non-negative ms, ⌊s/60⌋ then ":" then s mod 60 in two digits, with s = ⌊ms/1000⌋ |
| Playback.FormatTimeRoundTrip | components/clown-club/record-store/PlaybackControls.tsx:67-72 | the seconds field always has two digits, and reading the text back gives ⌊ms/1000⌋ |
| Playback.NegativeTime | components/clown-club/record-store/PlaybackControls.tsx:67-72 | a negative time prints with JavaScript's truncating remainder: −1000 ms shows as "-1:-1" |
| Playback.ProgressPercent | components/clown-club/record-store/PlaybackControls.tsx:74-76 | 0 without a track; no number for a zero duration; otherwise the percentage p with p · duration = 100 · progress, so within 0..100 when the progress lies within the duration and exactly 100 at the end |
| Playback.RatioBound | components/clown-club/record-store/PlaybackControls.tsx:75 | progress/duration lies in [0, 1] when the progress lies within the duration |
| Playback.ProgressMonotone | components/clown-club/record-store/PlaybackControls.tsx:74-76 | for one positive duration, more progress never shows a smaller percentage |
| Playback.GuestOnState | components/clown-club/record-store/PlaybackControls.tsx:37-42 | the state is replaced; the auth flag changes only when the state carries the field, and then takes its value |
| Playback.IdleMessage | components/clown-club/record-store/PlaybackControls.tsx:141 | "No track playing" iff the guest panel is authenticated |
| Playback.HostOnState | components/clown-club/record-store/HostPlaybackControls.tsx:68-73 | the state is replaced; when the field is present the flag becomes (field !== false), otherwise it is unchanged |
| Playback.PanelsOnAuthField | components/clown-club/record-store/HostPlaybackControls.tsx:70-72 | for a boolean field both panels agree; a null field leaves the guest panel signed out and the host panel signed in |
| Playback.HostOnAuthComplete | components/clown-club/record-store/HostPlaybackControls.tsx:75-78 | auth-complete sets authenticated and clears connecting, nothing else |
| Playback.HostOnError | components/clown-club/record-store/HostPlaybackControls.tsx:80-83 | an error sets the message and clears connecting, nothing else |
| Playback.HostConnect | components/clown-club/record-store/HostPlaybackControls.tsx:96-121 | connecting clears the error; a failed auth request stores its message and clears connecting |
| Playback.HostTokens | components/clown-club/record-store/HostPlaybackControls.tsx:48-62 | tokens are sent iff fetched, which also sets authenticated; a failure stores the error |
| Playback.EventName | components/clown-club/record-store/PlaybackControls.tsx:51-65 | every command emits an `rs:` event |
| Playback.MainButton | components/clown-club/record-store/PlaybackControls.tsx:159 | the main button sends pause iff playing, and play otherwise |
| GameEvents.On | lib/clown-club/gameEvents.ts:10-15 | the handler is appended to the event's list; every other event's list is unchanged |
| GameEvents.Off | lib/clown-club/gameEvents.ts:17-25 | no change for an unknown event; otherwise only the first occurrence of the handler is removed; other events are unchanged |
| GameEvents.Emit | lib/clown-club/gameEvents.ts:28-33 | every handler of the event is called in order with the arguments; nothing is called for an unknown event |
| GameEvents.RemoveAllListeners | lib/clown-club/gameEvents.ts:35-41 | with no (or an empty) event every list is dropped; otherwise only that event's list |
| GameEvents.CallsMatchRegistrations | lib/clown-club/gameEvents.ts:10-33 | a handler is called as many times as it is registered for the event |
| GameEvents.TwiceOnOnceOff | lib/clown-club/gameEvents.ts:10-25 | a handler registered twice is called twice, and once after one `off` |
| GameEvents.OnThenOff | lib/clown-club/gameEvents.ts:10-25 | `on` followed by `off` of a new handler restores the event's list |
| Avalon.RequiredTeamSize | lib/clown-club/phaser/scenes/AvalonScene.ts:407-422 | the table value for 5–10 players and quests 1–5, and 2 for any other player count or quest |
| Avalon.TeamSizeBounds | lib/clown-club/phaser/scenes/AvalonScene.ts:407-422 | a required team has 2 to 5 members, and is smaller than the table when there are at least 5 players |
| Avalon.HandlePlayerClick | lib/clown-club/phaser/scenes/AvalonScene.ts:353-371 | the leader in team-building toggles the player and sends the new team; in assassination any click sends an assassinate event; every other click does nothing |
| Avalon.ClickTwiceRestores | lib/clown-club/phaser/scenes/AvalonScene.ts:355-360 | toggling never creates duplicates, and two clicks on a player not in the team restore it |
| Avalon.Propose | lib/clown-club/phaser/scenes/AvalonScene.ts:374-388 | a proposal is sent iff the team has exactly the required size, and carries that team |
| Avalon.HandlePhaseChange | lib/clown-club/phaser/scenes/AvalonScene.ts:545-713 | every phase change resets the voted and card flags and sets the phase; host, leader, seating, results, quest and team are taken from the message when present and truthy and kept otherwise, except that a team-building phase always starts with an empty proposed team |
| Avalon.PhaseChangeTwice | lib/clown-club/phaser/scenes/AvalonScene.ts:545-594 | handling the same phase message twice gives the same scene as handling it once |
| Avalon.TeamBuildingStartsEmpty | lib/clown-club/phaser/scenes/AvalonScene.ts:709-713 | right after a team-building phase change the PROPOSE TEAM button sends nothing, since the team is empty and every required size is at least 2 |
| Avalon.DisplayName | lib/clown-club/phaser/scenes/AvalonScene.ts:315 | names of up to 8 characters are unchanged; longer names become their first 7 characters plus '…', exactly 8 |
| Avalon.Timer | lib/clown-club/phaser/scenes/AvalonScene.ts:603-612 | red iff 0 < s ≤ 10, gold otherwise; no text iff s ≤ 0 |
| MultipleChoice.Create | lib/clown-club/phaser/ui/MultipleChoice.ts:43-73 | nothing is selected at first; labels are on unless turned off; multi-select and disabled are off unless turned on |
| MultipleChoice.SelectOption | lib/clown-club/phaser/ui/MultipleChoice.ts:129-171 | an unknown id changes nothing and fires no callback; otherwise the callback fires with the id, multi-select toggles the id, and single-select leaves exactly that id selected |
| MultipleChoice.Tap | lib/clown-club/phaser/ui/MultipleChoice.ts:122-125 | a disabled widget ignores taps; otherwise a tap selects |
| MultipleChoice.MultiSelectToggles | lib/clown-club/phaser/ui/MultipleChoice.ts:135-170 | in multi-select a tap flips the id's membership, leaves every other selection unchanged, keeps the selection free of duplicates, and fires the callback even on a deselect |
| MultipleChoice.SelectedId | lib/clown-club/phaser/ui/MultipleChoice.ts:177-179 | null iff nothing is selected, otherwise the first selected id in insertion order |
| MultipleChoice.FirstSelectionKept | lib/clown-club/phaser/ui/MultipleChoice.ts:135-179 | in multi-select, tapping any id but the first selected one leaves the first selected id in place |
| MultipleChoice.SingleSelectThenGet | lib/clown-club/phaser/ui/MultipleChoice.ts:146-179 | after a single-select tap the selected id is the one tapped |
| MultipleChoice.Reset | lib/clown-club/phaser/ui/MultipleChoice.ts:206-214 | reset empties the selection and keeps the options and the mode |
| MultipleChoice.SetDisabled | lib/clown-club/phaser/ui/MultipleChoice.ts:181-192 | disabling changes the flag and keeps the selection |
| MultipleChoice.Label | lib/clown-club/phaser/ui/MultipleChoice.ts:90 | option i's label is the character with code 65 + i |
| MultipleChoice.DisplayText | lib/clown-club/phaser/ui/MultipleChoice.ts:88-92 | with labels on, option i reads "label. text"; otherwise just the text |
| MultipleChoice.FirstLabels | lib/clown-club/phaser/ui/MultipleChoice.ts:88-92 | the first four options are labelled A, B, C and D |
| WorldRenderer.FindByEmoji | lib/clown-club/phaser/WorldRenderer.ts:535-537 | the first registry character with the emoji, or none iff no character has it |
| WorldRenderer.ResolveCharacterSpriteKey | lib/clown-club/phaser/WorldRenderer.ts:528-539 | direct keys ("clown-*", "penguin-blue", "green-cap") come back unchanged; any other result is the non-empty sprite key of a character with that emoji; an input that is neither gives null |
| WorldRenderer.ResolveEmoji | lib/clown-club/phaser/WorldRenderer.ts:535-538 | every registered character's emoji resolves to its sprite key |
| WorldRenderer.ResolvedIsRegistered | lib/clown-club/phaser/WorldRenderer.ts:528-539 | every resolved key that is not a clown key has a sprite sheet in the registry |
| WorldRenderer.UnknownClownPassesThrough | lib/clown-club/phaser/WorldRenderer.ts:530-531 | "clown-teal" resolves to itself although no sheet is registered for it |
| WorldRenderer.SpriteScale | lib/clown-club/phaser/WorldRenderer.ts:544-551 | clown sheets 0.35 for the host and 0.4 for players, green-cap 2.5 and 3, anything else 1 |
| WorldRenderer.HostNoLarger | lib/clown-club/phaser/WorldRenderer.ts:544-551 | the host view never scales a sprite larger than the player view |
| WorldRenderer.SpritePositions | lib/clown-club/phaser/WorldRenderer.ts:556-565 | clown keys give ±50 (host) and ±58 (player); every other key, and null, gives (−35, 30) and (−40, 35); the crown is always above and the tag below |
| WorldRenderer.LabelsClearSprite | lib/clown-club/phaser/WorldRenderer.ts:544-565 | for every registered sheet, crown and name tag sit outside the drawn frame |
| AssetRegistry.Direction4To8 | lib/clown-club/phaser/assets/AssetRegistry.ts:33-50 | down, left, up and right land on the south, west, north and east columns, all even and below 8 |
| AssetRegistry.ClownDirectionRow | lib/clown-club/phaser/assets/AssetRegistry.ts:114-120 | down on row 0, right on row 1, left on row 2, up on row 3 of the 4-row clown sheet |
| AssetRegistry.TutorialDirectionRow | lib/clown-club/phaser/assets/AssetRegistry.ts:122-127 | down on row 0, up on row 1, left on row 2, right on row 3 of the 4-row tutorial sheet |
| AssetRegistry.DirectionMaps | lib/clown-club/phaser/assets/AssetRegistry.ts:45-127 | the three direction maps are one-to-one, and opposite directions sit half a turn apart on the compass |
| AssetRegistry.ClownSpriteConfigs | lib/clown-club/phaser/assets/AssetRegistry.ts:67-80 | one entry per clown colour, keyed by its own "clown-" key |
| AssetRegistry.SpriteConfigsWellFormed | lib/clown-club/phaser/assets/AssetRegistry.ts:67-111 | eleven sheets (three fixed, eight clown colours) with distinct keys, and each entry's key and path are its table key and `/assets/characters/<key>.png` |
| AssetRegistry.ClownConfigLookup | lib/clown-club/phaser/assets/AssetRegistry.ts:67-111 | every clown colour's sheet is found under its key with 256-pixel frames, 3 columns and 4 rows |
| AssetRegistry.TablesWellFormed | lib/clown-club/phaser/assets/AssetRegistry.ts:129-146 | character and object keys are distinct, every emoji is non-empty and not '❓', characters have distinct emoji, and no character sheet key is empty |
| AssetRegistry.CharacterEmoji | lib/clown-club/phaser/assets/AssetRegistry.ts:159-161 | the character's emoji, and '❓' exactly for an unknown type |
| AssetRegistry.ObjectEmoji | lib/clown-club/phaser/assets/AssetRegistry.ts:166-168 | the object's emoji, and '❓' exactly for an unknown type |
| AssetRegistry.SpriteOf | lib/clown-club/phaser/assets/AssetRegistry.ts:129-138 | a character's sprite key as listed; none for an unknown type |
| AssetRegistry.CharacterSpritesRegistered | lib/clown-club/phaser/assets/AssetRegistry.ts:83-138 | every sprite key a character names is a registered sheet |
| AssetRegistry.HasCharacterSpriteAsWritten | lib/clown-club/phaser/assets/AssetRegistry.ts:173-175 | the check as written: true for every unknown type, and for known types true iff a sprite key is listed |
| AssetRegistry.UnknownCharacterReportsSprite | lib/clown-club/phaser/assets/AssetRegistry.ts:173-175 | "dragon" is reported as having a sprite although it has none |
| AssetRegistry.HasCharacterSprite | lib/clown-club/phaser/assets/AssetRegistry.ts:173-175 | the corrected check: true iff the type is known and names a sprite key |
| AssetRegistry.HasSpriteMeansLoadable | lib/clown-club/phaser/assets/AssetRegistry.ts:83-175 | with the corrected check, a reported sprite is a registered sheet |
| ThemeLoader.ActiveTheme | lib/clown-club/phaser/ThemeLoader.ts:111-113 | the named theme when it exists, else the "default" theme; undefined iff neither exists |
| ThemeLoader.LobbyOf | lib/clown-club/phaser/ThemeLoader.ts:118-121 | the active theme's lobby, defined iff an active theme is |
| ThemeLoader.ArcadeOf | lib/clown-club/phaser/ThemeLoader.ts:177-180 | undefined (None) when there is no active theme; otherwise exactly the active theme's arcade section, itself possibly absent |
| ThemeLoader.RecordsOf | lib/clown-club/phaser/ThemeLoader.ts:203-206 | undefined (None) when there is no active theme; otherwise exactly the active theme's record-store section, itself possibly absent |
| ThemeLoader.FreshPropIndices | lib/clown-club/phaser/ThemeLoader.ts:161-168 | exactly the indices of props whose sprite was not seen earlier, in increasing order |
| ThemeLoader.LoadedSprites | lib/clown-club/phaser/ThemeLoader.ts:161-168 | the sprites of those props, in prop order |
| ThemeLoader.FreshPropsCoverSprites | lib/clown-club/phaser/ThemeLoader.ts:161-168 | every prop's sprite gets loaded, and no sprite is loaded twice |
| ThemeLoader.PreloadLobby | lib/clown-club/phaser/ThemeLoader.ts:141-170 | the scenery loads come first; every later load is a first-of-its-sprite prop under `theme-prop-<index>`, and every such prop is loaded |
| ThemeLoader.LobbyScenery | lib/clown-club/phaser/ThemeLoader.ts:144-159 | a unified background is loaded iff the mode is unified with a non-empty background; no scenery iff not unified and no layers; six loads iff layered with buildings |
| ThemeLoader.SceneryKeys | lib/clown-club/phaser/ThemeLoader.ts:79-159 | scenery loads use the seven scenery keys, none twice |
| ThemeLoader.LobbyKeysDistinct | lib/clown-club/phaser/ThemeLoader.ts:141-170 | no key is loaded twice in a lobby preload |
| ThemeLoader.PropKeyInjective | lib/clown-club/phaser/ThemeLoader.ts:166 | `prefix + index` determines the index |
| ThemeLoader.PropKeysDiffer | lib/clown-club/phaser/ThemeLoader.ts:194 | different indices give different prop keys |
| ThemeLoader.PropKeyEndsInDigit | lib/clown-club/phaser/ThemeLoader.ts:194 | a prop key ends in a decimal digit |
| ThemeLoader.LobbyProbePath | lib/clown-club/phaser/ThemeLoader.ts:126-136 | the non-empty background, else the non-empty sky layer; none iff neither is there |
| ThemeLoader.PreloadScene | lib/clown-club/phaser/ThemeLoader.ts:185-224 | an optional background load, then one load per prop under `<prefix><index>`, with no de-duplication |
| ThemeLoader.PreloadArcade | lib/clown-club/phaser/ThemeLoader.ts:185-198 | the unified, non-empty background first under "theme-arcade-background" with path `/assets/themes/<background>`, then prop i under "theme-arcade-prop-<i>" with path `/assets/themes/<sprite>`, one per prop with no de-duplication |
| ThemeLoader.PreloadRecords | lib/clown-club/phaser/ThemeLoader.ts:211-224 | the same for the record store, under "theme-records-background" and "theme-records-prop-<i>" |
| ThemeLoader.ScenePrefixes | lib/clown-club/phaser/ThemeLoader.ts:185-224 | every scene load's key starts with the scene's prefix and every path with `/assets/themes/` |
| ThemeLoader.SceneKeysDistinct | lib/clown-club/phaser/ThemeLoader.ts:185-224 | neither the arcade nor the record store loads two images under one key |
| ThemeLoader.SceneKeysDistinctFor | lib/clown-club/phaser/ThemeLoader.ts:185-198 | a background key not ending in a digit and index-numbered prop keys never collide |
| ThemeLoader.SceneKeyPair | lib/clown-club/phaser/ThemeLoader.ts:185-198 | any two positions of a scene preload carry different keys |
| ThemeLoader.SharedSpriteLoadCounts | lib/clown-club/phaser/ThemeLoader.ts:161-196 | two props sharing a sprite give one lobby load but two arcade loads |
| ThemeLoader.LoadThemeConfig | lib/clown-club/phaser/ThemeLoader.ts:99-106 | the fetched configuration, or the fallback when the request fails |
| ThemeLoader.FallbackIsProcedural | lib/clown-club/phaser/ThemeLoader.ts:230-249 | the fallback selects its own theme, whose lobby has nothing to probe and whose six loads all point at the bare theme directory |
| MockData.GetPhases | lib/clown-club/debug/mockData.ts:14-191 | a known game's phase list, else just "lobby" |
| MockData.PhasesStartInLobby | lib/clown-club/debug/mockData.ts:14-191 | every game's phase list is non-empty and starts with "lobby" |
| MockData.GetMockData | lib/clown-club/debug/mockData.ts:193-202 | an unknown game, or an unknown phase of a known game, gives just `{ phase }` |
| MockData.StoredPhasesMatch | lib/clown-club/debug/mockData.ts:36-181 | every stored About You entry reports the phase it is filed under |
| MockData.MockDataReportsPhase | lib/clown-club/debug/mockData.ts:36-202 | the result always reports the phase asked for; for an About You phase it says whether the role is the main character, any unknown role falling back to the guesser, and names "player-1" as main character in the lobby, answering and reveal phases and nobody in the round summary and game over; anything else gives just `{ phase }` |
| MockData.MockPhasesAreDeclared | lib/clown-club/debug/mockData.ts:15-181 | the About You mock covers exactly the declared phases, in the declared order |
| WorldMockData.Spread | lib/clown-club/debug/worldMockData.ts:110-136 | every mock player, in order, placed 80 pixels apart from x = 300 |
| WorldMockData.WorldMock | lib/clown-club/debug/worldMockData.ts:176-189 | the zone's id, name and objects, the local player's id, the scenario's own overlay or none, and a message exactly with the construction overlay |
| WorldMockData.LocalPlayerPresent | lib/clown-club/debug/worldMockData.ts:77-189 | every scenario's players include the local player and have distinct ids |
| WorldMockData.OverlaysByZone | lib/clown-club/debug/worldMockData.ts:77-164 | the record store shows only its own three overlays, the other zones only the game selector or construction; a scenario shows its own overlay iff it belongs to the zone |
| WorldMockData.SpreadLeftToRight | lib/clown-club/debug/worldMockData.ts:108-138 | in the multiplayer scenario of the game room and the record store, players stand left to right |
| WorldMockData.ZoneExits | lib/clown-club/debug/worldMockData.ts:45-65 | the game room and the record store start with the exit door, and object ids are distinct in each zone |
| WorldMockData.ScenarioIndex | lib/clown-club/debug/worldMockData.ts:171 | every scenario appears in the scenario list |
| WorldMockData.ZoneScenarios | lib/clown-club/debug/worldMockData.ts:193-198 | each zone offers all eight scenarios, each once |
| ProjectScan.TechNames | app/api/admin/projects/route.ts:68-137 | each technology is shown under the label the route pushes for it, in order |
| ProjectScan.DetectTechStack | app/api/admin/projects/route.ts:64-143 | no technology twice, exactly the technologies some check found, and in the order in which the checks first found them |
| ProjectScan.FromGroups | app/api/admin/projects/route.ts:79-139 | a technology is detected iff a config file, a package dependency, a requirements line or the Prisma schema yields it |
| ProjectScan.PackageGroup | app/api/admin/projects/route.ts:96-112 | package.json yields only the nine JavaScript technologies, and Prisma iff "prisma" or "@prisma/client" is a dependency |
| ProjectScan.RequirementsGroup | app/api/admin/projects/route.ts:115-128 | requirements.txt yields only the eight Python libraries |
| ProjectScan.SchemaGroup | app/api/admin/projects/route.ts:131-139 | a Prisma schema always yields Prisma, and otherwise only the three databases |
| ProjectScan.ConfigGroup | app/api/admin/projects/route.ts:68-93 | Node.js iff package.json, Python iff requirements.txt, .NET iff a `.csproj` or `.sln` file, Java iff pom.xml or build.gradle; never Prisma |
| ProjectScan.NodeTag | app/api/admin/projects/route.ts:69-91 | Node.js is detected iff package.json exists |
| ProjectScan.PythonTag | app/api/admin/projects/route.ts:70-91 | Python is detected iff requirements.txt exists |
| ProjectScan.DotNetTag | app/api/admin/projects/route.ts:73-87 | .NET is detected iff some listed file ends in `.csproj` or `.sln` |
| ProjectScan.JavaTag | app/api/admin/projects/route.ts:75-91 | Java is detected iff pom.xml or build.gradle exists |
| ProjectScan.PrismaTag | app/api/admin/projects/route.ts:108-132 | Prisma is detected iff it is a dependency or the schema file exists |
| ProjectScan.LineSummaries | app/api/admin/projects/route.ts:161-171 | exactly the non-empty summaries of non-blank lines that parse as summary records |
| ProjectScan.FileSummaries | app/api/admin/projects/route.ts:156-173 | exactly the summaries logged in some `.jsonl` file of the folder |
| ProjectScan.ClaudeSummaries | app/api/admin/projects/route.ts:145-177 | no folder gives none; otherwise exactly the logged summaries, each once, in ascending order |
| ProjectScan.Find | app/api/admin/projects/route.ts:192 | the first position of the separator, or none iff it does not occur |
| ProjectScan.SplitFirstTwo | app/api/admin/projects/route.ts:192 | no message iff the text has no separator, and then the whole text; otherwise the text up to the first separator, and a message that runs from after it up to the next separator or the end |
| ProjectScan.GetGitInfo | app/api/admin/projects/route.ts:179-201 | no `.git` gives no git; a failed `git log` gives git without a date; otherwise a date |
| ProjectScan.GitInfoRoundTrip | app/api/admin/projects/route.ts:186-197 | a `date\|\|\|subject` line with no separator inside either part, and no padding, gives back exactly that date and subject |
| ProjectScan.GitDateIffOutput | app/api/admin/projects/route.ts:179-201 | there is a date iff there is a `.git` directory and `git log` succeeded, and the git flag is the directory test |
| ProjectScan.ParagraphAfterTitle | app/api/admin/projects/route.ts:212-229 | none iff no line after a heading is non-blank and starts with neither '#' nor '!'; otherwise the first such line, trimmed, cut to 200 characters |
| ProjectScan.ReadmeDescription | app/api/admin/projects/route.ts:203-235 | the description of the first readme in `README.md`, `readme.md`, `README.txt`, `readme.txt` order that has one, at most 200 characters; none iff none has one |
| ProjectScan.RequirementsHeader | app/api/admin/projects/route.ts:262-265 | nothing iff the first line does not start with '#'; otherwise the first line is '#', then only blanks, then the header, and the header does not start with a blank |
| ProjectScan.GenerateSummary | app/api/admin/projects/route.ts:237-293 | at most 300 characters: the package description if there is one, else the requirements header, else the README text, else "Work includes: " and the first five session summaries, else the name, " project using " and the first three technologies, else the name and " - no description available", each cut to 300 |
| ProjectScan.SourcePriority | app/api/admin/projects/route.ts:246-290 | package description, then requirements header, then readme, then session summaries, then tech stack, then the placeholder: each is used iff every earlier one is missing and it is present |
| ProjectScan.BareHashGivesEmptySummary | app/api/admin/projects/route.ts:262-292 | a requirements file whose first line is just "#" gives an empty summary, though a stack is known |
| AdminProjects.StatusNamed | app/api/admin/projects/route.ts:331 | the status with this exact name, or none iff no status has it |
| AdminProjects.NormalizeStatus | app/api/admin/projects/route.ts:330-333 | a saved status that is a valid name once lower-cased is kept; anything else, or nothing, is "unknown" |
| AdminProjects.StatusRoundTrip | app/api/admin/projects/route.ts:330-375 | every status survives being saved and read back, in any letter case |
| AdminProjects.LoadEntries | app/api/admin/projects/route.ts:25-45 | one entry per saved project name, each name once |
| AdminProjects.LoadKeepsLast | app/api/admin/projects/route.ts:29-38 | when a name is saved twice, the later entry wins |
| AdminProjects.LoadCatalog | app/api/admin/projects/route.ts:25-45 | a missing or unreadable catalog gives no entries; otherwise exactly the saved names |
| AdminProjects.BuildProject | app/api/admin/projects/route.ts:306-348 | name, path, tech, sessions and description from the scan, and the git fields exactly as `getGitInfo` gives them; a saved non-empty summary wins over a generated one; the saved review flag wins over the marker heuristic; with saved data the status is the saved one normalised and the flags and notes are the saved ones (false or empty when missing), without saved data they are unknown, false, false and empty |
| AdminProjects.FallbackSummaryFlagged | app/api/admin/projects/route.ts:275-328 | a summary built from sessions, the tech stack or the placeholder is flagged for review |
| AdminProjects.SessionsMarked | app/api/admin/projects/route.ts:275-328 | a session summary, even cut to 300 characters, starts with the review marker |
| AdminProjects.StackMarked | app/api/admin/projects/route.ts:282-328 | a tech-stack summary keeps the "project using" marker when the name leaves room for it |
| AdminProjects.PlaceholderMarked | app/api/admin/projects/route.ts:288-328 | a placeholder summary keeps the "no description available" marker when the name leaves room for it |
| AdminProjects.PrecedesTotal | app/api/admin/projects/route.ts:352-359 | any two projects are ordered one way or the other |
| AdminProjects.PrecedesTransitive | app/api/admin/projects/route.ts:352-359 | the listing order is transitive |
| AdminProjects.InsertProject | app/api/admin/projects/route.ts:352-359 | inserting into a sorted listing keeps it sorted and adds exactly that project |
| AdminProjects.SortProjects | app/api/admin/projects/route.ts:352-359 | a sorted permutation of the projects |
| AdminProjects.SortedMeaning | app/api/admin/projects/route.ts:352-359 | in the sorted listing dated projects come first, newest first, and undated ones follow by name |
| AdminProjects.ListedEntries | app/api/admin/projects/route.ts:302-304 | exactly the directory entries that are folders and do not start with '.' |
| AdminProjects.ListedEntriesAppend | app/api/admin/projects/route.ts:302-304 | the listing of a + b is a's listing followed by b's, so folder order is kept |
| AdminProjects.ListedEntriesOne | app/api/admin/projects/route.ts:302-304 | one folder is listed exactly when it is a directory not starting with '.' |
| AdminProjects.BuildAll | app/api/admin/projects/route.ts:302-349 | one project per listed folder, in order, each built from that folder's scan |
| AdminProjects.ListProjects | app/api/admin/projects/route.ts:295-366 | a scan failure iff the projects folder cannot be read; otherwise the sorted list is a permutation of one project built from each listed folder, in particular every listed folder appears exactly as often as it is listed |
| AdminProjects.Persist | app/api/admin/projects/route.ts:368-385 | one catalog entry per project, in order, carrying its name, status name, flags, summary and notes |
| AdminProjects.SaveThenList | app/api/admin/projects/route.ts:313-385 | saving and listing again gives back the status, flags and notes, and a non-empty summary |
| ProjectsPage.FilteredProjects | app/admin/projects/page.tsx:84-97 | a project is shown iff it passes the status filter and the search, and nothing else is shown |
| ProjectsPage.FilteredAppend | app/admin/projects/page.tsx:84-97 | filtering a + b is filtering a followed by filtering b, so list order is kept |
| ProjectsPage.FilteredOne | app/admin/projects/page.tsx:84-97 | a single project is shown exactly when it passes both the status filter and the search |
| ProjectsPage.ShowAll | app/admin/projects/page.tsx:84-97 | with the "all" filter and an empty search every project is shown, in order |
| ProjectsPage.SearchIgnoresCase | app/admin/projects/page.tsx:90-95 | the search ignores the case of the query, and finds every project by its own name |
| ProjectsPage.CountWhere | app/admin/projects/page.tsx:101-106 | a count never exceeds the number of projects |
| ProjectsPage.Counts | app/admin/projects/page.tsx:99-107 | the "all" count is the number of projects; the review count and each of the five status counts is the number of projects that button's filter shows with an empty search |
| ProjectsPage.CountsAddUp | app/admin/projects/page.tsx:99-107 | the five status counts add up to the "all" count |
| ProjectsPage.CountIsShown | app/admin/projects/page.tsx:84-107 | each button's count is the number of projects that button shows with an empty search |
| ProjectsPage.Apply | app/admin/projects/page.tsx:62 | every edited field takes the edit's value and every field the edit leaves out keeps its value; the scanned fields (name, path, tech, sessions, git fields, description) never change |
| ProjectsPage.UpdateProject | app/admin/projects/page.tsx:60-64 | the edit lands on every project with the name and on no other |
| ProjectsPage.UpdateIdempotent | app/admin/projects/page.tsx:60-64 | repeating an edit changes nothing more |
| ProjectsPage.EditSummary | app/admin/projects/page.tsx:279-284 | typing a summary sets that text and clears the review flag |
| ProjectsPage.EditedSummarySurvivesSave | app/admin/projects/page.tsx:66-284 | a non-empty edited summary, once saved, is listed again unflagged |
| ProjectsPage.ToggleExpanded | app/admin/projects/page.tsx:218 | a click opens the card unless it is the open one, which it closes |
| Abducktion.Step | app/abducktion/play/page.tsx:102-119 | up and down change only the row by one, left and right only the column by one |
| Abducktion.StepBack | app/abducktion/play/page.tsx:106-119 | every step moves, and the opposite step undoes it |
| Abducktion.CanMove | app/abducktion/play/page.tsx:99-127 | false without a player or a room; otherwise true iff the step stays inside the board's row count and first row's width |
| Abducktion.OnlyShapeMatters | app/abducktion/play/page.tsx:121-126 | the cells' contents never affect a move, only the board's shape |
| Abducktion.MoveBackAllowed | app/abducktion/play/page.tsx:99-127 | from a square on the board, a move that is allowed can be undone |
| Abducktion.EmptyBoardBlocks | app/abducktion/play/page.tsx:122-124 | an empty board allows no move |
| Abducktion.HandleMove | app/abducktion/play/page.tsx:90-97 | a move is sent iff a socket, a room and a player who has not won are all present, and it carries the room code and the direction |
| Abducktion.ButtonEnabled | app/abducktion/play/page.tsx:231-259 | a button is live iff the player has not won and the step stays on the board |
| Abducktion.EnabledButtonSends | app/abducktion/play/page.tsx:90-259 | pressing a live button while connected always sends the move, and a winner has no live button |
| Abducktion.FindPlayer | app/abducktion/play/page.tsx:61-70 | the first player with the id; none iff no player has it |
| Abducktion.OnRoomUpdate | app/abducktion/play/page.tsx:58-74 | the room is replaced, and the player's own record is refreshed when the room lists them and kept otherwise |
| StringOrder.SortUnique | app/api/admin/projects/route.ts:149-176 | `[...new Set(xs)].sort()`: strictly ascending, holding exactly the elements of the input |
| StringOrder.SortedListingUnique | app/api/admin/projects/route.ts:176 | a set has only one strictly ascending listing, so the sorted summaries are determined by their elements |

## Left out

- File and process I/O: image loading and saving, copies, directory creation and watching, argparse plumbing, `fs` and `execSync`. File contents, directory listings and command output are parameters.
- PIL's LANCZOS `resize` and `thumbnail`, `getbbox` and `paste` blending are opaque: a `Resampler` parameter guarantees only the output size, and bounding boxes are computed from alpha as `getbbox` does on an RGBA image.
- AI background removal (rembg), LaMa and classical inpainting, and watermark contour detection: the names `scripts/ingest-image.py:54-55` and `scripts/process-cosmetic.py:18` import do not exist in `scripts/remove-watermark.py`, so only the import fallbacks are modelled, where watermark removal is the identity and `HAS_LAMA` is false.
- numpy float32 rounding: pixel arithmetic is exact `real` arithmetic, and the cast to `uint8` is `Floor` on values already in [0, 255].
- JavaScript `toUpperCase`, `toLowerCase` and `trim` act on ASCII letters and ASCII white space only; Unicode case mapping and Unicode spaces are not modelled.
- `JSON.parse` of request bodies, catalogs and session-log lines is an opaque parameter. A catalog is a sequence of well-formed entries or no catalog at all; a `null` element, which makes `loadCatalog` stop at that element and keep only the entries before it, is not modelled.
- `Math.random` room codes are a supply of draws, and `Date.now` and `new Date()` are parameters.
- CaptionServer.GenerateRoomCode: requires the supply of draws to contain a free code, standing for the source's retry loop, which ends only with probability 1.
- Socket.IO transport, Supabase and Postgres calls, the GitHub fetch and the theme-config fetch: each is reduced to the value it returns or the message it sends.
- The RSS template text around the items is not modelled; the item fields and escaping are.
- `Date.prototype.toUTCString` is an opaque `utc` parameter of PodcastFeed.ItemOf and PodcastFeed.LastBuildDate: the feed's dates are whatever it renders, and date parsing is not modelled.
- `localeCompare` and `new Date(...).getTime()` in the project sort are a code-point order and an opaque `time` parameter; invalid dates (NaN) are not modelled.
- MultipleChoice.Label: option indices whose code 65 + i reaches the UTF-16 surrogate range (0xD800) have no Dafny `char`, so those labels are a replacement character; the contract covers only the codes below.
- Theme effects, colours, building emoji and labels that no preload reads are dropped from the theme records.
- Mock payload fields other than `phase`, `isMainCharacter` and `mainCharacterId`, and player fields other than id, name and position, are dropped from the mock tables.
- Zones and scenarios are enumerations, so `getZoneScenarios` and `getWorldMockData` on an unknown zone name cannot be expressed.
- A `deps` value that is an empty string counts as a dependency in ProjectScan (JavaScript would treat it as falsy).
- A session summary that is not a string is not modelled: summaries are strings.
- `path.join` is string concatenation with "/".
- Strings are sequences of Unicode scalar values, while JavaScript's `length`, `slice` and default `sort()` count and compare UTF-16 code units. For text outside the Basic Multilingual Plane, StringOrder.SortUnique, the 200- and 300-character cuts of ProjectScan and AdminProjects, and Avalon.DisplayName therefore differ from the source ("\uFF01" sorts after "\u{1F600}" in JavaScript and before it here).
- ThemeLoader.ArcadeOf, ThemeLoader.RecordsOf: `getArcadeTheme` and `getRecordsTheme` throw when no theme is active; the model returns `None` there instead of an error.
- `--size` is a natural number in `scripts/remove-watermark.py` and `scripts/process-cosmetic.py`; a negative value, which the source's `int` parsing accepts, is not modelled.
- The ActivityFeed footer (`components/ActivityFeed.tsx:81-95`) is not modelled as rendered text: its "Last commit" line is ActivityFeed.FormatDate of `updatedAt` when present, and the rest is a fixed link.
- The emoji at the end of the two WorldMockData overlay messages (lines 98 and 124 of `lib/clown-club/debug/worldMockData.ts`) is dropped; the text before it is kept.
- AdminProjects.SortProjects: the order is promised only up to ties (equal commit times, or equal names among undated projects); that ties keep their listing order, as JavaScript's stable sort does, is not stated.
- React state, effects and rendering, Phaser drawing and tweens: only the state each handler computes is modelled.
- The header counts of featured and portfolio-worthy projects (`app/admin/projects/page.tsx:109-110`) are not modelled; they are plain counts like the status counts.
- Cosmetic.FitSize: the fitted sides are `Floor` of exact rational products; Python computes `int(width * scale)` in float64, which can land one below (98×50 at 64 gives 63 in the source, 64 here). The fitted size is therefore promised only up to that rounding.
- Cosmetic.ResizeToFit: inherits the float64 gap of Cosmetic.FitSize for the size it resizes to; an image that already fits is returned unchanged in both.
- Cosmetic.ProcessCosmetic: inherits the float64 gap of Cosmetic.FitSize through Cosmetic.ResizeToFit.
- Watermark.MixBetween: `Mix` floors the exact blend; Python's float64 `int(o * (1 - blend) + a * blend)` can fall one below (o = a = 10 with blend 1/60 gives 9 in the source, 10 here), so the bounds are promised for exact arithmetic only.
- Watermark.FillMethodRemove: each corner pixel is the exact-arithmetic blend, with the float64 gap of Watermark.MixBetween.
- Watermark.FillColourOfUniformSample: the average itself uses integer `//` as the source does, so this holds as written; the blend that then uses this colour has the float64 gap of Watermark.MixBetween.
- ApiCommon.ParseInt: JavaScript numbers are doubles, so a digit run beyond 2^53 is rounded by the source and exact here; the leading white space `parseInt` skips also includes Unicode spaces and line terminators that `Text.IsSpace` does not cover.
- Ingest.ParseInt: Python's `int()` also accepts non-ASCII digits and the white space characters U+001C to U+001F and beyond ASCII; only ASCII digits and the white space of `Text.IsSpace` are modelled.
- Watermark.RemoveWatermark: requires the fill size to fit inside the image; a larger size makes the source address pixels at negative coordinates, which the model does not describe.
- ProjectScan.GitInfoRoundTrip: stated only for dates and subjects without the separator, leading date blanks or trailing blanks, since `trim` and `split` change any other input.
- AdminProjects.FallbackSummaryFlagged: stated for project names of at most 273 characters; a longer name pushes the review marker past the 300-character cut.
- Abducktion.OnRoomUpdate: when the room no longer lists the player, the old player record is kept, as the source does; no contract says that record is stale.

## Findings

| source | as written | input that shows it | evidently intended | confidence | as-written member | corrected member |
|---|---|---|---|---|---|---|
| server.js:138-158 | the room is looked up with the upper-cased code but the player is added under the raw code | join room "ABCD" with code "abcd" | add the player to the room that was found | high, not executed | CaptionServer.JoinRoomAsWritten, CaptionServer.LowerCaseJoinIsLost | CaptionServer.JoinRoom, CaptionServer.JoinAgreesOnUpperCase |
| scripts/build-spritesheet.py:121-124 | the four flips index `processed` directly, so a missing side-walk, side-idle, front-walk or back-walk frame raises KeyError, and the skip for missing cells can never apply to them | a frames folder without `side-walk` | skip the flip whose source is missing, as the layout loop skips missing cells | medium, not executed | SpriteSheet.BuildSpritesheetAsWritten, SpriteSheet.AddFlipsAsWritten, SpriteSheet.MissingSideWalkAborts | SpriteSheet.BuildSpritesheet, SpriteSheet.AddFlips, SpriteSheet.MissingCellIsClear |
| lib/clown-club/phaser/assets/AssetRegistry.ts:173-175 | `characters[t]?.spriteKey !== null` is true for an unknown type, since `undefined !== null` | character type "dragon" | true only for a known character with a sprite key | medium, not executed | AssetRegistry.HasCharacterSpriteAsWritten, AssetRegistry.UnknownCharacterReportsSprite | AssetRegistry.HasCharacterSprite, AssetRegistry.HasSpriteMeansLoadable |

## Notes on the source

- The crop method of `scripts/remove-watermark.py` crops the corner band and then resizes back, so every method keeps the image size.
- `scripts/remove-watermark.py` documents a default `--size` of 40 but its argument parser uses 60; the model uses 60.
- In `server.js` one player who submits twice in a two-player room opens voting (`CaptionServer.DoubleSubmissionOpensVoting`), because the count of submissions, not of submitters, is compared with the player count.
- An unregistered clown key such as "clown-teal" passes through sprite resolution unchanged (`WorldRenderer.UnknownClownPassesThrough`).
- A requirements file whose first line is a bare "#" gives an empty summary (`ProjectScan.BareHashGivesEmptySummary`).
- A `git log` date that ends in '\|' shifts the split, so `GitInfoRoundTrip` excludes it.
- The Abducktion page bounds every row by the first row's width.
- `checkTableExists` treats any probe error that is not a missing-table error, such as a refused connection, as proof that the table exists, so the runner then stops without migrating (`Migration.UnrelatedErrorCountsAsExisting`).
- `formatTime` on a negative time prints negative fields (−1000 ms gives "-1:-1", `Playback.NegativeTime`), because JavaScript's `%` keeps the sign of the dividend.
