/**
 * The records the store keeps and the enumerations they draw on.
 * Money is held in integer cents throughout: a price of 49.99 is 4999.
 */
module Schema {
  import opened Common

  /** The fixed template categories. */
  datatype Category = Ecommerce | Portfolio | Saas | Restaurant | Corporate | Fitness

  /** The template lifecycle states. */
  datatype TemplateStatus = Draft | Published | Archived

  /** The order states; the store only ever creates `Paid` orders. */
  datatype OrderStatus = Pending | Paid | Failed | Refunded

  /** The wire name of a template status. */
  function StatusName(s: TemplateStatus): string {
    match s
    case Draft => "draft"
    case Published => "published"
    case Archived => "archived"
  }

  /** Validation of a status string against the status enumeration. */
  function ParseStatus(s: string): (r: Option<TemplateStatus>)
    ensures forall st :: r == Some(st) <==> s == StatusName(st)
  {
    if s == "draft" then Some(Draft)
    else if s == "published" then Some(Published)
    else if s == "archived" then Some(Archived)
    else None
  }

  /** The image used when a template has neither a hero image nor a gallery. */
  const DefaultTemplateImage: string :=
    "https://images.unsplash.com/photo-1521737604893-d14cc237f11d?auto=format&fit=crop&w=1600&q=80"

  type Positive = n: int | n > 0 witness 1

  /** An exact decimal number `num / den`. */
  datatype Decimal = Decimal(num: int, den: Positive)

  /** A JavaScript number as the store receives it: not-a-number or a finite value. */
  datatype NumberInput = NotANumber | Finite(value: Decimal)

  datatype Template = Template(
    id: string,
    slug: string,
    title: string,
    category: Category,
    price: int,
    status: TemplateStatus,
    description: string,
    heroImage: string,
    galleryImages: seq<string>,
    videoUrl: Option<string>,
    liveDemoUrl: Option<string>,
    figmaUrl: Option<string>,
    tags: seq<string>,
    features: seq<string>,
    createdAt: string,
    updatedAt: string)

  /** The denormalised snapshot of a template kept on a cart line. */
  datatype TemplateSummary = TemplateSummary(
    id: string,
    slug: string,
    title: string,
    category: Category,
    price: int,
    status: TemplateStatus,
    heroImage: string)

  /** The fields supplied to create a template; `None` is an absent or null field. */
  datatype InsertTemplate = InsertTemplate(
    title: string,
    slug: Option<string>,
    category: Category,
    price: NumberInput,
    status: Option<string>,
    description: string,
    heroImage: Option<string>,
    galleryImages: Option<seq<string>>,
    videoUrl: Option<string>,
    liveDemoUrl: Option<string>,
    figmaUrl: Option<string>,
    tags: Option<seq<string>>,
    features: Option<seq<string>>)

  /** A partial update: every field may be absent. */
  datatype UpdateTemplate = UpdateTemplate(
    title: Option<string>,
    slug: Option<string>,
    category: Option<Category>,
    price: Option<NumberInput>,
    status: Option<string>,
    description: Option<string>,
    heroImage: Option<string>,
    galleryImages: Option<seq<string>>,
    videoUrl: Option<string>,
    liveDemoUrl: Option<string>,
    figmaUrl: Option<string>,
    tags: Option<seq<string>>,
    features: Option<seq<string>>)

  datatype CartItem = CartItem(
    id: string,
    templateId: string,
    quantity: int,
    unitPrice: int,
    addedAt: string,
    template: TemplateSummary)

  datatype Cart = Cart(id: string, items: seq<CartItem>, subtotal: int)

  datatype Order = Order(
    id: string,
    cartId: string,
    items: seq<CartItem>,
    total: int,
    status: OrderStatus,
    createdAt: string)

  /** A user; `password` is the stored salted hash, computed outside the model. */
  datatype User = User(id: string, username: string, password: string)

  /** The part of an order shown among the recent orders of the admin statistics. */
  datatype RecentOrder = RecentOrder(id: string, total: int, status: OrderStatus, createdAt: string)

  datatype AdminStats = AdminStats(
    totalTemplates: nat,
    publishedTemplates: nat,
    totalOrders: nat,
    totalRevenue: int,
    recentOrders: seq<RecentOrder>)
}
