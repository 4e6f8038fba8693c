/** Records of the application tables (convex/schema.ts). Every numeric field of the
    schema is a JavaScript number; the model uses exact reals for them. */
module Schema {
  import opened Wrappers

  type Number = real
  /** Document ids. The store hands them out from a counter. */
  type Id = nat
  type UserId = nat
  type StorageId = nat
  type Url = string

  datatype OfferType = Sale | Rent
  datatype PropertyType = Apartment | House | Villa | Office | Land
  datatype Status = Pending | Approved | Rejected | Sold | Rented

  /** The literal the schema stores for a property type, which `list` compares with its
      free-form `propertyType` argument. */
  function PropertyTypeName(t: PropertyType): string
  {
    match t
    case Apartment => "apartment"
    case House => "house"
    case Villa => "villa"
    case Office => "office"
    case Land => "land"
  }

  datatype Coordinates = Coordinates(lat: Number, lng: Number)

  datatype Location = Location(city: string, area: string, address: string, coordinates: Option<Coordinates>)

  datatype Features = Features(
    bedrooms: Number, bathrooms: Number, area: Number,
    parking: bool, furnished: bool, balcony: bool, garden: bool,
    pool: bool, gym: bool, security: bool)

  datatype ContactInfo = ContactInfo(phone: string, email: string, whatsapp: Option<string>)

  /** A listing; `creationTime` is the store's `_creationTime` system field. */
  datatype Property = Property(
    id: Id,
    creationTime: Number,
    title: string,
    description: string,
    price: Number,
    offerType: OfferType,
    propertyType: PropertyType,
    location: Location,
    features: Features,
    images: seq<StorageId>,
    ownerId: UserId,
    status: Status,
    featured: bool,
    views: Number,
    contactInfo: ContactInfo)

  datatype Review = Review(
    id: Id,
    creationTime: Number,
    propertyId: Id,
    userId: UserId,
    rating: Number,
    comment: string,
    helpful: Number)

  datatype Favorite = Favorite(id: Id, userId: UserId, propertyId: Id)

  datatype PriceRange = PriceRange(min: Number, max: Number)

  datatype Preferences = Preferences(
    id: Id,
    userId: UserId,
    preferredType: Option<OfferType>,
    preferredPropertyTypes: seq<string>,
    preferredCities: seq<string>,
    priceRange: PriceRange,
    preferredFeatures: seq<string>,
    searchHistory: seq<string>)

  datatype MarketAnalysis = MarketAnalysis(
    id: Id,
    city: string,
    area: string,
    propertyType: string,
    averagePrice: Number,
    priceChange: Number,
    totalListings: Number,
    analysisDate: Number,
    aiInsights: string)
}
