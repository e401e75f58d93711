# MartIT storefront core, modelled in Dafny

MartIT is an electronics storefront. It has a React front end and a Go back end. This project
models the parts of it that hold real logic, in one or more Dafny modules per source file,
plus the shared helper modules `Numbers`, `Strings` and `Options`:

- **ScrollCanvas** (`scroll_canvas.dfy`, `overlays.dfy`): the landing page's scroll-scrubbed
  banner. It preloads 26 frame images, counts successful loads, and switches off the loading
  screen once every frame has arrived. The scroll progress picks the frame
  (`Math.round`, clamped to the frame range). That frame is painted "contain"-fitted on a
  canvas whose backing store follows the device pixel ratio. Four text overlays fade in and
  out through clamped piecewise-linear transforms; `interpolation.dfy` models those transforms.
- **Cart** (`cart.dfy`): the cart page. Its state is a cart list, a wishlist and drag state.
  Totals are left folds. Moving an item from the wishlist merges it by name or appends a
  fresh entry. Quantity changes never go below 1. "Save for later" takes every cart entry
  with the item's id away.
- **Register** (`register.dfy`): the registration form. It checks the email pattern and the
  phone pattern, runs the submit cascade with its four messages, keeps the four OTP boxes and
  moves focus between them, builds the masked phone number, and holds the registration and
  verification requests. Each backend answer is a parameter of the handler that receives it.
- **Carousel** (`carousel.dfy`): circular next/previous indices, the normalisation
  `(i + length) % length` under JavaScript's `%`, and each slide's signed offset from the
  active slide.
- **BookSession** (`book_session.dfy`): the booking calendar. It has the 4-blank,
  30-day month grid, the day and slot highlights, and the summary labels.
- **Header** (`header.dfy`): the navigation tabs and which one is marked active for a
  pathname. The root tab matches exactly; every other tab matches by prefix.
- **Videos** (`videos.dfy`): each video card's background colour, chosen from a fixed
  four-colour palette by a linear-congruential hash of the card's position.
- **AuthMiddleware** (`auth_middleware.dfy`): the Go HTTP middleware. It requires
  `Authorization: Bearer <token>`, has the token verified, reads the `user_id` claim and
  rejects every failure with 401 and its own message.

Shared helpers:

- `numbers.dfy`: `Math.round` and JavaScript's truncated `%`.
- `strings.dfy`: decimal rendering, `padStart`, and `split`/`join` with a non-empty separator.
  JavaScript and Go agree on `split` for such separators.
- `options.dfy`: an `Option` type for `null` and `undefined`.

JavaScript numbers are modelled as mathematical integers or reals; floating-point rounding is
not modelled. A value the source tests for truthiness is false when it is `""` or `0`, as in
JavaScript. A state-changing component is a `class`. Its handlers are `modifies` methods, and
each method's `ensures` gives the whole new state in terms of specification functions. In the
scroll canvas the loader's derived fields (the counter, the rejection and loading flags, the
stored images and the callback count) follow from the slots through the class invariant, which
every method keeps. The lemmas beside those functions prove what the page promises.

## Model

| member | source | states |
|---|---|---|
| Numbers.Min | src/components/ScrollCanvas.tsx:67-70 | `Math.min(a, b)` is one of its two arguments and at most both |
| Numbers.Max | src/components/ScrollCanvas.tsx:68 | `Math.max(a, b)` is one of its two arguments and at least both |
| Numbers.Round | src/components/ScrollCanvas.tsx:68 | `Math.round(x)` is the integer within half a unit of `x`, with halves rounding up |
| Numbers.TruncRem | src/lib/hooks/useCarouselLogic.ts:5 | JavaScript's `%` for a positive divisor. A non-negative dividend gives Dafny's remainder. A negative dividend gives a result in `(-b, 0]`: 0 when the divisor divides it, otherwise Dafny's remainder minus `b` |
| Strings.NatToString | src/components/ScrollCanvas.tsx:37 | `String(n)` for a natural number (also `${selectedDate}` at BookSession.tsx:134): at least one digit, only digits, and no leading zero unless n is 0; NatToStringRoundTrip shows it reads back as n |
| Strings.NatToStringRoundTrip | src/components/ScrollCanvas.tsx:37 | reading back the decimal rendering of `n` gives `n` |
| Strings.PadStart | src/components/ScrollCanvas.tsx:37 | `padStart` keeps the string as its suffix and fills up to the width with the pad character, or leaves a string already that long unchanged |
| Strings.Split | backend/internal/middleware/auth.go:27 | `strings.Split` on a non-empty separator (also JavaScript `split` at BookSession.tsx:134 and 140): at least one piece; SplitJoin, SplitAtFirst, FirstPiece, SplitWithout and SplitPiecesWithoutSeparator give the pieces' meaning |
| Strings.Join | src/components/Register.tsx:119 | `otp.join("")`: the first piece, and after it the separator when there are more, start the result; SplitJoin and OtpCodeDigits give the whole result |
| Strings.SplitWithout | backend/internal/middleware/auth.go:27 | a string with no occurrence of the separator splits into itself alone |
| Strings.SplitPiecesWithoutSeparator | backend/internal/middleware/auth.go:27 | for a one-character separator no piece contains it |
| Strings.SplitJoin | backend/internal/middleware/auth.go:27 | joining the pieces of a split with the separator gives back the original string |
| Strings.FirstPiece | src/components/BookSession.tsx:140 | the first piece of a split is a prefix with no separator starting inside it, and it is either the whole string or followed by the separator |
| Strings.SplitAtFirst | backend/internal/middleware/auth.go:27 | the first piece of a split is the text before the first separator, and splitting continues on the rest |
| ScrollCanvas.FrameName | src/components/ScrollCanvas.tsx:37 | the URL of frame `i`: the frame directory, the number padded to three digits, then `.jpg`; its properties are the lemmas of the next rows |
| ScrollCanvas.FrameNumberIsThreeDigits | src/components/ScrollCanvas.tsx:37 | a frame number below 1000 is rendered as three digits whose value is the number |
| ScrollCanvas.FrameNamesDistinct | src/components/ScrollCanvas.tsx:37 | different frame numbers give different image URLs |
| ScrollCanvas.FirstAndLastFrameNames | src/components/ScrollCanvas.tsx:4-5 | the first and last of the 26 URLs end in `001.jpg` and `026.jpg` |
| ScrollCanvas.FrameSources | src/components/ScrollCanvas.tsx:34-45 | the loop requests exactly 26 URLs, the k-th being frame k+1 |
| ScrollCanvas.FrameValue | src/components/ScrollCanvas.tsx:23-27 | the frame-index transform: the scroll progress mapped through the clamped table from 0..1 onto the frame indices 0..25 |
| ScrollCanvas.FrameForProgress | src/components/ScrollCanvas.tsx:67-70 | the frame painted for a progress: the transform's value rounded and clamped; stated by the FrameForProgress lemmas |
| ScrollCanvas.FrameIndex | src/components/ScrollCanvas.tsx:67-70 | the drawn frame is the rounded index clamped to `[0, count-1]`, with each clamp case stated |
| ScrollCanvas.FrameIndexNearest | src/components/ScrollCanvas.tsx:67-70 | for an index in range, the chosen frame is the nearest one |
| ScrollCanvas.FrameForProgressEnds | src/components/ScrollCanvas.tsx:23-27 | progress 0 shows frame 0 and progress 1 shows frame 25 |
| ScrollCanvas.FrameForProgressMonotone | src/components/ScrollCanvas.tsx:23-27 | scrolling further never shows an earlier frame, and the frame is always below 26 |
| ScrollCanvas.FrameForProgressInRange | src/components/ScrollCanvas.tsx:23-27 | inside `[0, 1]` the frame is `round(progress * 25)` |
| ScrollCanvas.ContainFit | src/components/ScrollCanvas.tsx:84-100 | the drawn rectangle lies inside the container, keeps the image's aspect ratio, is centred, and fills the width or the height |
| ScrollCanvas.AspectFacts | src/components/ScrollCanvas.tsx:85-100 | the branch on `imgAspect > canvasAspect` says which side is filled |
| ScrollCanvas.BackingSize | src/components/ScrollCanvas.tsx:80-81 | the backing-store size is the CSS size times the pixel ratio, rounded down, whenever that product is below 2^32; it is always below 2^32 |
| ScrollCanvas.BackingSizeWholeRatio | src/components/ScrollCanvas.tsx:80-81 | a whole-number pixel ratio multiplies the CSS size exactly |
| ScrollCanvas.EffectiveDpr | src/components/ScrollCanvas.tsx:76 | `devicePixelRatio \|\| 1`: a reported ratio of 0 becomes 1, any other is kept |
| ScrollCanvas.LoadedCount | src/components/ScrollCanvas.tsx:39 | the count of loaded frames is at most the number of frames, and equals it exactly when all have loaded |
| ScrollCanvas.ImagesOf | src/components/ScrollCanvas.tsx:48-49 | once all frames have loaded, the stored images are the loaded ones, in request order |
| ScrollCanvas.LoadedCountSettle | src/components/ScrollCanvas.tsx:38-42 | settling a pending frame raises the count by one for a load and by nothing for an error |
| ScrollCanvas.LoadPercent | src/components/ScrollCanvas.tsx:156 | `Math.round(loaded / 26 * 100)` on exact reals; bounded by LoadPercentRange |
| ScrollCanvas.LoadPercentRange | src/components/ScrollCanvas.tsx:156 | the shown percentage stays in 0..100 and reaches 100 only when all 26 frames have loaded |
| ScrollCanvas.ApplyAt | src/components/ScrollCanvas.tsx:35-43 | after a batch of distinct events, each frame is settled by its own event or left as it was |
| ScrollCanvas.EveryFrameNamed | src/components/ScrollCanvas.tsx:47-48 | 26 events for distinct frames cover every frame, so `Promise.all` sees all of them |
| ScrollCanvas.ErrorIsTerminal | src/components/ScrollCanvas.tsx:47-54 | once one frame has failed, no later events complete the load |
| ScrollCanvas.Component.constructor | src/components/ScrollCanvas.tsx:14-16 | the component starts loading all 26 frames, with none loaded, no images and nothing drawn |
| ScrollCanvas.Component.DrawFrame | src/components/ScrollCanvas.tsx:61-106 | with no images it changes nothing. Otherwise it sizes the backing store, sets the scale to the pixel ratio and adds one paint of the clamped frame, contain-fitted |
| ScrollCanvas.Component.OnLoad | src/components/ScrollCanvas.tsx:38-51 | a load raises the counter. The last load stores the images, clears the loading flag, calls the callback once and paints frame 0 |
| ScrollCanvas.Component.Resolve | src/components/ScrollCanvas.tsx:47-54 | once every frame has loaded, the images are stored in frame order, loading ends, the callback fires once and frame 0 is painted |
| ScrollCanvas.Component.Settle | src/components/ScrollCanvas.tsx:38-42 | one completion settles exactly its own frame and raises the counter only for a load. The CSS size and progress stay; the canvas and its paints stay unless this was the last frame, which leaves the canvas sized for the ratio with frame 0 as its one paint |
| ScrollCanvas.Component.SettleEach | src/components/ScrollCanvas.tsx:30-58 | settling completions one at a time in arrival order gives the batch's slots and adds its loads to the counter. The CSS size and progress stay; the canvas and its paints stay unless the batch completes the load, which leaves the canvas sized for the ratio with frame 0 as its one paint |
| ScrollCanvas.Component.OnError | src/components/ScrollCanvas.tsx:42-54 | an error marks the loader rejected, and the page stays loading with nothing drawn |
| ScrollCanvas.Component.Deliver | src/components/ScrollCanvas.tsx:30-58 | a batch of events settles exactly the frames it names and raises the counter by its loads; the CSS size and progress stay. Unless it completes the load, the loading state, canvas and paints are unchanged, and any failure keeps the page loading. 26 loads end loading, fire the callback once, size the canvas for the ratio and paint frame 0 contain-fitted as the only paint |
| ScrollCanvas.Component.OnScroll | src/components/ScrollCanvas.tsx:111-122 | the progress is replaced. When loaded and the frame value changes, the canvas is sized for the ratio, the scale set and the new progress's frame painted; otherwise canvas, scale and paints stay. The loader state is unchanged |
| ScrollCanvas.Component.OnResize | src/components/ScrollCanvas.tsx:125-134 | the CSS size becomes the new one. Once loaded the canvas is sized for the ratio, the scale set and the current progress's frame redrawn at the new size; before that canvas, scale and paints stay |
| ScrollCanvas.Component.ShownPercent | src/components/ScrollCanvas.tsx:156 | the loader's percentage stays in 0..100 and reads 100 exactly when loading is over |
| Interpolation.Piecewise | src/components/ScrollCanvas.tsx:23-27 | the straight line through the segment that holds the input, searched from the first segment |
| Interpolation.Interpolate | src/components/ScrollCanvas.tsx:184-214 | framer-motion's default `useTransform`: the input clamped to the breakpoint range, then interpolated; its meaning is stated by the Interpolate lemmas |
| Interpolation.InterpolateAtBreakpoint | src/components/ScrollCanvas.tsx:184-214 | at each input breakpoint a transform outputs its paired value |
| Interpolation.InterpolateHolds | src/components/ScrollCanvas.tsx:184-214 | outside the breakpoint range the output is clamped to the first or last value |
| Interpolation.InterpolateOnSegment | src/components/ScrollCanvas.tsx:184-214 | between two neighbouring breakpoints the output is the straight line between their values |
| Interpolation.InterpolateFlat | src/components/ScrollCanvas.tsx:184-214 | on a segment whose two values are equal the output is constant |
| Interpolation.InterpolateMonotone | src/components/ScrollCanvas.tsx:23-27 | a transform with non-decreasing outputs is non-decreasing in progress and bounded by its end values |
| Overlays.TablesWellFormed | src/components/ScrollCanvas.tsx:184-214 | the nine overlay transforms have strictly increasing breakpoints inside [0, 1], with one output per breakpoint |
| Overlays.OverlayStyles | src/components/ScrollCanvas.tsx:182-216 | nothing is rendered while loading. Otherwise every opacity is in [0, 1], the CTA scale is in [0.95, 1] and the CTA offset is in [0, 50] |
| Overlays.OpacityBounds | src/components/ScrollCanvas.tsx:184-214 | every opacity transform stays in [0, 1] at any progress |
| Overlays.HeroOpacityProfile | src/components/ScrollCanvas.tsx:184 | the hero shows fully at the top and is gone from 15% on |
| Overlays.Feature1OpacityProfile | src/components/ScrollCanvas.tsx:188-192 | feature 1 is hidden up to 20%, fully shown from 30% to 40%, and hidden again from 50% |
| Overlays.Feature1OpacitySamples | src/components/ScrollCanvas.tsx:188-192 | feature 1's opacity at 10%, 25%, 35%, 45% and 60% is 0, 0.5, 1, 0.5 and 0 |
| Overlays.Feature2OpacityProfile | src/components/ScrollCanvas.tsx:200-204 | feature 2 is hidden up to 50%, fully shown from 60% to 70%, and hidden from 80% |
| Overlays.FeaturesNeverOverlap | src/components/ScrollCanvas.tsx:188-204 | at every progress at least one of the two feature panels is fully transparent |
| Overlays.CtaOpacityProfile | src/components/ScrollCanvas.tsx:212 | the call to action is hidden up to 80% and fully shown from 90% |
| Cart.Subtotal | src/components/Cart.tsx:184 | the sum of price times quantity over the cart, as the `reduce` from 0; additive by SubtotalAppend |
| Cart.TotalSavings | src/components/Cart.tsx:187 | the sum of `(savings \|\| 0) * quantity`; additive by TotalSavingsAppend |
| Cart.Total | src/components/Cart.tsx:184-186 | the total exceeds the subtotal by exactly the 500 delivery charge |
| Cart.SubtotalAppend | src/components/Cart.tsx:184 | the subtotal of two lists is the sum of their subtotals |
| Cart.TotalSavingsAppend | src/components/Cart.tsx:187 | the savings of two lists add up, and an item without savings contributes 0 |
| Cart.SubtotalNonNegative | src/components/Cart.tsx:184-186 | with non-negative prices and quantities of at least 1, the subtotal is non-negative and the total is at least the delivery charge |
| Cart.Without | src/components/Cart.tsx:295 | filtering by id leaves no entry with that id and never lengthens the list |
| Cart.WithoutKeeps | src/components/Cart.tsx:295 | filtering adds nothing and keeps every entry whose id differs |
| Cart.WithoutAppend | src/components/Cart.tsx:295 | filtering works piece by piece, so the kept entries keep their order |
| Cart.WithoutNone | src/components/Cart.tsx:247 | a list with no entry of that id is left unchanged |
| Cart.WithoutIdempotent | src/components/Cart.tsx:295 | removing an id twice is the same as removing it once |
| Cart.WithoutLowersSubtotal | src/components/Cart.tsx:294-296 | removing entries never raises the subtotal |
| Cart.UpdatedQuantities | src/components/Cart.tsx:281-291 | every entry with the id gets `max(1, quantity + delta)`, the others are unchanged, the length is kept |
| Cart.UpdateKeepsQuantitiesPositive | src/components/Cart.tsx:284-288 | every quantity the buttons touch ends at least 1, so positive quantities stay positive |
| Cart.DecrementStopsAtOne | src/components/Cart.tsx:285 | the minus button on a quantity of 1 leaves the item unchanged |
| Cart.MergedByName | src/components/Cart.tsx:258-264 | every entry with the moved item's name gains one unit, and the others are unchanged |
| Cart.NewCartItem | src/components/Cart.tsx:266-273 | a new cart entry copies name, price and image, has quantity 1 and the fresh id, and has an empty description when none was given |
| Cart.CartAfterMove | src/components/Cart.tsx:255-275 | moving an item merges it by name when the name is present, appends it otherwise, and keeps quantities positive |
| Cart.MoveNewItemSubtotal | src/components/Cart.tsx:265-275 | moving an item with a new name raises the subtotal by its price and leaves the savings unchanged |
| Cart.MoveExistingItem | src/components/Cart.tsx:257-264 | moving an item with a known name keeps the cart's length and changes only quantities |
| Cart.SavedItem | src/components/Cart.tsx:300-306 | the wishlist entry made by "save for later" copies name, price, image and description under a fresh id |
| Cart.InitialTotals | src/components/Cart.tsx:31-100 | the starting cart's subtotal, total and savings are 902700, 903200 and 146000 |
| Cart.SaveLaptopRemovesAll | src/components/Cart.tsx:299-309 | saving the laptop for later removes all three laptop entries, because they share an id |
| Cart.CartPage.constructor | src/components/Cart.tsx:178-181 | the page starts with the sample cart and wishlist and no drag in progress |
| Cart.CartPage.ShowsEmptyCart | src/components/Cart.tsx:184-187 | the empty-cart placeholder shows exactly when the cart is empty and nothing is hovering (line 417), and then the summary shows subtotal 0, savings 0 and the 500 delivery charge as the total |
| Cart.CartPage.MoveToCart | src/components/Cart.tsx:254-278 | the cart becomes the moved cart, every wishlist entry with the item's id goes, and the drag state is kept |
| Cart.CartPage.DragStart | src/components/Cart.tsx:190-194 | the dragged item is recorded and nothing else changes |
| Cart.CartPage.DragEnd | src/components/Cart.tsx:196-199 | the dragged item and the highlight are cleared |
| Cart.CartPage.DragOver | src/components/Cart.tsx:202-206 | the drop zone is highlighted |
| Cart.CartPage.DragLeave | src/components/Cart.tsx:208-211 | the highlight is cleared |
| Cart.CartPage.HandleDrop | src/components/Cart.tsx:213-251 | the highlight goes off. A decoded payload is moved as by the button; an undecodable one changes neither list |
| Cart.CartPage.UpdateQuantity | src/components/Cart.tsx:281-291 | the cart becomes the updated quantities and every quantity stays at least 1 |
| Cart.CartPage.RemoveFromCart | src/components/Cart.tsx:294-296 | every cart entry with the id goes, and nothing else changes |
| Cart.CartPage.SaveForLater | src/components/Cart.tsx:299-309 | one wishlist entry is appended for the item, then every cart entry with its id goes |
| Register.EmailRegexMatches | src/components/Register.tsx:7 | the pattern `^[^\s@]+@[^\s@]+\.[^\s@]+$` read as three non-empty runs of `[^\s@]` split by an `@` and a `.`, any `.` being allowed by backtracking |
| Register.IsValidEmail | src/components/Register.tsx:8 | `isValidEmail` is the pattern test; characterized by EmailRegexCharacterized |
| Register.EmailRegexCharacterized | src/components/Register.tsx:7-8 | the email pattern matches exactly when the string has no whitespace, exactly one `@` with text before it, and a dot after it with text on both sides |
| Register.EmailSamples | src/components/Register.tsx:7-8 | `a@b.c` is accepted, and `a@b.`, `a@.c`, `a@b@c.d` and `a b@c.d` are rejected |
| Register.IsValidPhone | src/components/Register.tsx:63 | `/^[6-9]\d{9}$/`: exactly ten ASCII digits, the first 6 to 9 |
| Register.PhoneSamples | src/components/Register.tsx:63 | ten digits starting with 6–9 are accepted; a 5 first, nine digits or a `+91` prefix are rejected |
| Register.SubmitCheck | src/components/Register.tsx:58-76 | the form may be sent exactly when all checks pass. Otherwise the first failing check, in source order, gives its message |
| Register.SubmitIgnoresGenderAndDob | src/components/Register.tsx:58-76 | gender and date of birth never affect the checks |
| Register.OtpInputOk | src/components/Register.tsx:36 | `/^\d?$/`: the empty string or one ASCII digit |
| Register.EmptyOtp | src/components/Register.tsx:26 | the OTP starts as four empty boxes |
| Register.OtpCode | src/components/Register.tsx:119 | `otp.join("")`; stated by OtpCodeDigits |
| Register.OtpCodeDigits | src/components/Register.tsx:119 | four one-digit boxes join into a four-digit code, box by box |
| Register.LastFour | src/components/Register.tsx:267 | `slice(-4)` is the last four characters, or the whole of a shorter string |
| Register.MaskedPhone | src/components/Register.tsx:267 | the shown number is `+91 ******` then the last four characters. For a valid phone number these are its digits 7–10 |
| Register.FaultMessage | src/components/Register.tsx:96-98 | the server's message is shown when present and non-empty, otherwise the fallback |
| Register.RegisterForm.constructor | src/components/Register.tsx:12-26 | an empty form. There is no consent, no error and no request; the form is on the register step with four empty boxes |
| Register.RegisterForm.SubmitEnabled | src/components/Register.tsx:250 | the register button is enabled exactly when no request is running and consent is given, so a submit from the enabled button never ends at the consent message of lines 73-76 |
| Register.RegisterForm.HandleInputChange | src/components/Register.tsx:29-32 | only the edited field of the user changes |
| Register.RegisterForm.SetConsent | src/components/Register.tsx:234 | only the consent flag changes |
| Register.RegisterForm.HandleOtpChange | src/components/Register.tsx:35-45 | input other than "" or one digit is ignored. Otherwise only that box changes, and focus moves to the next box after a digit unless this is the last box |
| Register.RegisterForm.OtpKeyDownFocus | src/components/Register.tsx:48-52 | Backspace in an empty box that is not the first moves focus one box back; nothing else moves it |
| Register.RegisterForm.HandleSubmit | src/components/Register.tsx:55-102 | a failed check sets its message and sends nothing. Otherwise one request carrying the form goes out; only a successful reply moves to verification, and a fault shows its message or "Registration failed" |
| Register.RegisterForm.ValidateOtp | src/components/Register.tsx:105-134 | an empty box stops it with "Please enter complete OTP.". Otherwise the phone and the four-digit code go out; success navigates home, and a fault shows its message or "Invalid OTP" |
| Register.RegisterForm.HandleEditNumber | src/components/Register.tsx:137-141 | back to the form with empty boxes and no error, the user data kept |
| Carousel.Normalize | src/lib/hooks/useCarouselLogic.ts:4-7 | an index at most one lap below zero lands in `[0, length)` with the right remainder, and an index already in range is unchanged |
| Carousel.NextIndex | src/lib/hooks/useCarouselLogic.ts:9 | `normalize(i + 1)`; stated by StepsInRange and StepsInverse |
| Carousel.PrevIndex | src/lib/hooks/useCarouselLogic.ts:10 | `normalize(i - 1)`; stated by StepsInRange and StepsInverse |
| Carousel.StepsInRange | src/lib/hooks/useCarouselLogic.ts:9-10 | next and previous stay in range and wrap from last to first and from first to last |
| Carousel.StepsInverse | src/lib/hooks/useCarouselLogic.ts:9-10 | previous undoes next, and next undoes previous |
| Carousel.NextTimesAdvances | src/lib/hooks/useCarouselLogic.ts:9 | n presses of next advance the slide by n modulo the length |
| Carousel.FullLap | src/lib/hooks/useCarouselLogic.ts:9 | `length` presses of next return to the starting slide |
| Carousel.CarouselState.Next | src/lib/hooks/useCarouselLogic.ts:9 | the active slide becomes the next index and stays in range |
| Carousel.CarouselState.Prev | src/lib/hooks/useCarouselLogic.ts:10 | the active slide becomes the previous index and stays in range |
| Carousel.OneLapApart | src/lib/hooks/useCarouselLogic.ts:14-15 | shifting an offset by at most one lap keeps it congruent modulo the length |
| Carousel.CarouselState.GetRelativeIndex | src/lib/hooks/useCarouselLogic.ts:12-17 | the offset is congruent to `index - activeIndex` and is 0 for the active slide. For slides in range it is at most half a lap in size. For every index it is the closed form of the source's two folds: the raw offset, shifted by one lap when twice it exceeds the length in either direction |
| Carousel.CarouselState.constructor | src/lib/hooks/useCarouselLogic.ts:3 | the hook starts with the given length and active slide, and an in-range start gives a valid state |
| Carousel.RelativeIndexShortest | src/lib/hooks/useCarouselLogic.ts:12-17 | an offset of at most half a lap is the shortest among all offsets congruent to it |
| BookSession.CalendarDays | src/components/BookSession.tsx:39-41 | the two loops build four blank cells, then days 1 to 30 in order |
| BookSession.EachDayOnce | src/components/BookSession.tsx:39-41 | each day of the month has exactly one cell, at column offset 4, and no other day appears |
| BookSession.MonthWeekdays | src/components/BookSession.tsx:32-41 | day 1 sits under Thursday and day 30 under Friday |
| BookSession.OneDayHighlighted | src/components/BookSession.tsx:80-86 | at most one day cell is highlighted |
| BookSession.DuplicateSlotHighlight | src/components/BookSession.tsx:97-102 | choosing either "4:00 PM - 5:00 PM" highlights both of them and no other slot |
| BookSession.MonthName | src/components/BookSession.tsx:134 | the month shown is "June" |
| BookSession.DateLabel | src/components/BookSession.tsx:134 | a selected day d is shown as "June d"; no day, or day 0, shows "Not selected" |
| BookSession.TimeLabel | src/components/BookSession.tsx:140 | no slot, or an empty one, shows "Not selected"; otherwise the label is the prefix of the slot text before its first " - ": no " - " starts inside the label, and the label is either the whole text or followed by " - " |
| BookSession.TimeLabelOfFirst | src/components/BookSession.tsx:140 | a slot "a - b" whose first " - " is the one right after `a` is labelled `a`, whatever else `a` and `b` contain |
| BookSession.TimeLabelWithoutSeparator | src/components/BookSession.tsx:140 | a non-empty slot text with no " - " in it is shown whole |
| BookSession.TimeLabelOfRange | src/components/BookSession.tsx:140 | a "start - end" slot whose start holds no '-' is labelled by its start |
| BookSession.TimeLabelOfShaped | src/components/BookSession.tsx:140 | a slot of the form "hh:mm XM - ..." is labelled by its first seven characters |
| BookSession.SlotShaped | src/components/BookSession.tsx:24-30 | every listed slot has that form |
| BookSession.SlotLabelsAreStartTimes | src/components/BookSession.tsx:24-30 | every listed slot is labelled by its start time, the first by "0:00 AM" |
| BookSession.BookingPage.constructor | src/components/BookSession.tsx:35-36 | nothing is selected at first |
| BookSession.BookingPage.SelectDate | src/components/BookSession.tsx:84 | clicking a day selects it and keeps the slot |
| BookSession.BookingPage.SelectSlot | src/components/BookSession.tsx:100 | clicking a slot selects it and keeps the day |
| Header.IsActive | src/components/Header.tsx:64-67 | Home is active only on exactly `/`; another tab when its path is a prefix of the pathname |
| Header.ActiveTabs | src/components/Header.tsx:63-67 | one flag per tab, each marking exactly the tabs that match the pathname |
| Header.HomeActive | src/components/Header.tsx:65-66 | Home is active exactly on "/" |
| Header.OtherTabActive | src/components/Header.tsx:67 | any other tab is active exactly when its path is a prefix of the pathname |
| Header.PrefixQuirks | src/components/Header.tsx:67 | "/tutor" is active on "/tutorprofile" but not on "/Tutor", and "/videos" is active on "/videos/123" |
| Header.PathsNotPrefixes | src/components/Header.tsx:5-15 | no non-root tab path is a prefix of another |
| Header.AtMostOneActive | src/components/Header.tsx:63-67 | at most one tab is active for any pathname |
| Header.RootOnlyHome | src/components/Header.tsx:63-67 | on "/" only Home is active |
| Videos.Hash | src/components/Videos.tsx:13 | for a card position the hash lies in `[0, 233280)` |
| Videos.CardColor | src/components/Videos.tsx:12-15 | card `index` takes palette colour `(index + 1) % 4` |
| Videos.PaletteIndex | src/components/Videos.tsx:13 | the hash's truncated remainder by the palette size; stated by PaletteIsNext |
| Videos.PaletteIsNext | src/components/Videos.tsx:12-15 | the palette slot of the hash is `(index + 1) % 4`, because 9301 ≡ 49297 ≡ 1 and 233280 ≡ 0 modulo 4 |
| Videos.NeighboursDiffer | src/components/Videos.tsx:12-15 | neighbouring cards never share a colour |
| Videos.PeriodFour | src/components/Videos.tsx:12-15 | colours repeat every four cards |
| Videos.FirstCards | src/components/Videos.tsx:4-9 | the first card is `bg-[#FFF7ED]` and the fourth is `bg-[#F5F7FA]` |
| AuthMiddleware.FormatCharacterized | backend/internal/middleware/auth.go:27-31 | the format check passes exactly for `Bearer ` followed by a space-free token, and the token is then the text after the space |
| AuthMiddleware.Authenticate | backend/internal/middleware/auth.go:17-50 | every rejection is 401, and each failing check in order gives its own message. A request passes exactly when all checks pass, carrying the `user_id` claim |
| AuthMiddleware.UserIdClaim | backend/internal/middleware/auth.go:46-50 | the user id is read only when the claim is present and a string |
| AuthMiddleware.OnlyTokenIsVerified | backend/internal/middleware/auth.go:34-38 | the outcome depends on the verifier's answer for the token alone |
| AuthMiddleware.FormatRejections | backend/internal/middleware/auth.go:27-31 | "Bearer", "Bearer a b", "Bearer  x" and "bearer x" are refused as badly formatted |
| AuthMiddleware.RejectedBySpace | backend/internal/middleware/auth.go:27-31 | a space anywhere in the token makes the format check fail |
| AuthMiddleware.EmptyTokenPassesFormat | backend/internal/middleware/auth.go:27-34 | "Bearer " passes the format check with an empty token, which goes on to verification |

## Left out

- Painting pixels, fetching images, the browser's scroll tracking and framer-motion's animation
  machinery are left out. Each image's completion enters as a load event, the scroll position
  as a real progress value, and the device pixel ratio as a parameter.
- IEEE-754 doubles are modelled as exact reals, so floating-point rounding in the canvas and
  overlay arithmetic is left out.
- ScrollCanvas.Component: a container of zero width or height is excluded by the class
  invariant; the source would then divide by zero.
- ScrollCanvas.Component.DrawFrame: the case where the canvas or its 2D context is missing is
  not modelled; the component always has both once mounted.
- ScrollCanvas: `console.error` on a failed load and the `onLoadComplete` callback's own effects
  are left out; the model counts how often the callback is called.
- Cart: `Date.now()` ids enter as a `freshId` parameter. `DataTransfer`, `JSON.parse` and the
  thrown parse error become an optional payload. `toLocaleString` formatting is not modelled.
- Cart: the display-only values (the "Cart Items (3)" label, the images, the dimming of the
  dragged item) are not modelled.
- Register: the network, `alert`, `navigate` and DOM focus are reduced to the request log, a
  flag for the move to `/home` and the index of the box to focus.
- Register.RegisterForm.HandleSubmit: each handler runs as one atomic step with the backend's
  answer as a parameter, so the window in which `loading` is true is not observable.
- Register.RegisterForm.ValidateOtp: the same atomic treatment as `HandleSubmit`.
- Register: `\s` is the set of whitespace and line-terminator characters that JavaScript's
  regular expressions list. The phone pattern's `\d` is the ASCII digits.
- Carousel.Normalize: a carousel of length 0 is excluded; the source then computes NaN.
- Carousel.Normalize: for an index more than one lap below zero only the sign of the result is
  stated; the source never produces such an index.
- Videos.Hash: the bound is stated for non-negative positions only, the ones the page uses.
- Videos.CardColor: for negative positions only the lookup's miss (`undefined`) is modelled, and
  no palette relation is stated.
- AuthMiddleware: JWT parsing and signature checking (including the `JWT_SECRET` environment
  variable) are an oracle parameter.
- AuthMiddleware: `uuid.Parse` and storing values in the request context are not modelled; the
  error from `uuid.Parse` is ignored by the source anyway.
- AuthMiddleware.Authenticate: the unchecked `claims["role"].(string)` at auth.go:53 is not
  modelled. A verified token with a string `user_id` but a missing or non-string `role` makes
  the source panic; the server's recovery middleware then answers HTTP 500 and `next` is never
  reached. The model's `Passed` covers these tokens too.
- ScrollCanvas.BackingSize: the value is kept modulo 2^32, as the conversion to `unsigned long`
  does. A browser sets the canvas's default size (300 by 150) instead of a value of 2^31 or
  more; layout sizes never come near that range, so this is not modelled.
- The back-end handlers, the WebRTC hub, the data models, the static pages and the remaining
  front-end components are not part of this model.
